/** Admission, session creation and revocation of one workspace server: the methods, and every
    interleaving of their critical sections (internal/gateway/lifecycle.go). */
module Lifecycle {
  import opened Sessions
  import SessionRuns

  // ----- the methods, each alone -----------------------------------------------------------------

  /** A request's cancel function is named by the request's number. */
  class Server {
    var revoked: bool
    var nextRequest: nat
    var requests: set<nat>
    var cancelled: set<nat>
    const sessions: SessionStore

    constructor (sessions: SessionStore)
      ensures !revoked && nextRequest == 0 && requests == {} && cancelled == {} && this.sessions == sessions
    {
      revoked, nextRequest, requests, cancelled := false, 0, {}, {};
      this.sessions := sessions;
    }

    method Admit() returns (number: nat, admitted: bool)
      modifies `nextRequest, `requests
      ensures admitted <==> !revoked
      ensures if admitted then number == old(nextRequest) + 1 == nextRequest && requests == old(requests) + {number}
              else nextRequest == old(nextRequest) && requests == old(requests)
    {
      if revoked {
        return 0, false;
      }
      nextRequest := nextRequest + 1;
      number := nextRequest;
      requests := requests + {number};
      admitted := true;
    }

    method FinishRequest(number: nat)
      modifies `requests, `cancelled
      ensures requests == old(requests) - {number}
      ensures cancelled == if number in old(requests) then old(cancelled) + {number} else old(cancelled)
    {
      var present := number in requests;
      requests := requests - {number};
      if present {
        cancelled := cancelled + {number};
      }
    }

    method CreateSession(id: string, principal: string, version: string, now: int)
      returns (created: bool, evicted: seq<string>, ghost oldest: seq<string>, ghost left: Store)
      requires sessions.max > 0
      modifies sessions
      ensures created <==> !revoked
      ensures created ==> EvictsTo(RemoveExpired(old(sessions.sessions), now, sessions.ttl), sessions.max, oldest, left)
      ensures created ==> sessions.sessions == left[id := Session(principal, version, now, now, false)]
      ensures !created ==> sessions.sessions == old(sessions.sessions) && evicted == []
    {
      created, evicted, oldest, left := false, [], [], map[];
      if revoked {
        return;
      }
      ghost var expired;
      evicted, expired, oldest, left := sessions.Create(id, principal, version, now);
      created := true;
    }

    /** Undisturbed, revocation empties the store and cancels every request admitted and unfinished. */
    method Revoke(now: int)
      modifies `revoked, `cancelled, sessions
      ensures revoked
      ensures !old(revoked) ==> sessions.sessions == map[] && cancelled == old(cancelled) + requests
      ensures old(revoked) ==> sessions.sessions == old(sessions.sessions) && cancelled == old(cancelled)
    {
      if revoked {
        return;
      }
      revoked := true;
      var live, evicted := sessions.Snapshot(now);
      sessions.Clear();
      var cancels := requests;
      ghost var before := cancelled;
      while cancels != {}
        invariant cancels <= requests && cancelled == before + (requests - cancels)
        invariant sessions.sessions == map[] && revoked
        decreases |cancels|
      {
        var number :| number in cancels;
        cancelled := cancelled + {number};
        cancels := cancels - {number};
      }
    }
  }

  // ----- every interleaving ------------------------------------------------------------------------

  /** Where the one effective revocation is: not begun, holding the lifecycle lock before or after
      its snapshot, cancelling what it collected, or returned. */
  datatype Phase = NotBegun | Locked(snapshotted: bool) | Cancelling(pending: set<nat>) | Returned

  /** requests are admitted and unfinished; finishing ones have left the table with their cancel
      function in hand.  returned lists the calls of Revoke that have returned, the first caller's with
      true and those that found the server already revoked with false. */
  datatype World = World(history: SessionRuns.History, revoked: bool, next: nat, requests: set<nat>,
                         finishing: set<nat>, cancelled: set<nat>, phase: Phase, returned: seq<bool>)

  datatype Move = AdmitMove
                | FinishTake(number: nat)
                | FinishCancel(number: nat)
                | CreateMove(op: SessionRuns.Op)
                | StoreMove(op: SessionRuns.Op)
                | RevokeBegin
                | RevokeSnapshot(now: int)
                | RevokeClear
                | RevokeCancel(number: nat)
                | RevokeReturn

  /** One critical section.  While the revocation holds the lifecycle lock, no request is admitted or
      finished and no session is created; lookups and deletions only need the store's own lock. */
  ghost predicate Next(ttl: int, max: nat, w: World, move: Move, after: World) {
    match move
    case AdmitMove =>
      && !w.phase.Locked?
      && after == if w.revoked then w else w.(next := w.next + 1, requests := w.requests + {w.next + 1})
    case FinishTake(number) =>
      && !w.phase.Locked?
      && after == w.(requests := w.requests - {number},
                     finishing := if number in w.requests then w.finishing + {number} else w.finishing)
    case FinishCancel(number) =>
      && number in w.finishing
      && after == w.(finishing := w.finishing - {number}, cancelled := w.cancelled + {number})
    case CreateMove(op) =>
      && !w.phase.Locked? && op.Create?
      && if w.revoked then after == w
         else SessionRuns.Step(ttl, max, w.history, op, after.history) && after == w.(history := after.history)
    case StoreMove(op) =>
      && (op.TouchOp? || op.MarkOp? || op.DeleteOp?)
      && SessionRuns.Step(ttl, max, w.history, op, after.history) && after == w.(history := after.history)
    case RevokeBegin =>
      && !w.phase.Locked?
      && after == if w.revoked then w.(returned := w.returned + [false])
                  else w.(revoked := true, phase := Locked(false))
    case RevokeSnapshot(now) =>
      && w.phase == Locked(false)
      && SessionRuns.Step(ttl, max, w.history, SessionRuns.SnapshotOp(now), after.history)
      && after == w.(history := after.history, phase := Locked(true))
    case RevokeClear =>
      && w.phase == Locked(true)
      && SessionRuns.Step(ttl, max, w.history, SessionRuns.ClearOp, after.history)
      && after == w.(history := after.history, phase := Cancelling(w.requests))
    case RevokeCancel(number) =>
      && w.phase.Cancelling? && number in w.phase.pending
      && after == w.(cancelled := w.cancelled + {number}, phase := Cancelling(w.phase.pending - {number}))
    case RevokeReturn =>
      w.phase == Cancelling({}) && after == w.(phase := Returned, returned := w.returned + [true])
  }

  const START := World(SessionRuns.START, false, 0, {}, {}, {}, NotBegun, [])

  ghost predicate Inv(max: nat, w: World) {
    && SessionRuns.Inv(max, w.history)
    && (w.revoked <==> !w.phase.NotBegun?)
    && (forall n :: n in w.requests || n in w.finishing || n in w.cancelled ==> n <= w.next)
    && (w.phase.Cancelling? ==> forall n :: n in w.phase.pending ==> n <= w.next)
    && (w.phase.Cancelling? || w.phase.Returned? ==> w.history.store == map[])
    && (w.phase.Cancelling? ==> w.requests <= w.phase.pending + w.cancelled)
    && (w.phase.Returned? ==> w.requests <= w.cancelled)
    && (w.returned != [] ==> w.phase.Cancelling? || w.phase.Returned?)
    && (true in w.returned <==> w.phase.Returned?)
  }

  lemma EmptyStays(ttl: int, max: nat, h: SessionRuns.History, op: SessionRuns.Op, after: SessionRuns.History)
    requires (op.TouchOp? || op.MarkOp? || op.DeleteOp?) && SessionRuns.Step(ttl, max, h, op, after)
    ensures h.store == map[] ==> after.store == map[]
  {
  }

  lemma StoreMoveInv(ttl: int, max: nat, w: World, move: Move, after: World)
    requires Inv(max, w) && Next(ttl, max, w, move, after) && (move.StoreMove? || (move.CreateMove? && !w.revoked))
    ensures Inv(max, after)
  {
    SessionRuns.StepInv(ttl, max, w.history, move.op, after.history);
    if move.StoreMove? {
      EmptyStays(ttl, max, w.history, move.op, after.history);
    }
  }

  lemma NextInv(ttl: int, max: nat, w: World, move: Move, after: World)
    requires Inv(max, w) && Next(ttl, max, w, move, after)
    ensures Inv(max, after)
  {
    match move
    case CreateMove(op) =>
      if !w.revoked {
        StoreMoveInv(ttl, max, w, move, after);
      }
    case StoreMove(op) => StoreMoveInv(ttl, max, w, move, after);
    case RevokeSnapshot(now) =>
      SessionRuns.StepInv(ttl, max, w.history, SessionRuns.SnapshotOp(now), after.history);
    case RevokeClear => SessionRuns.StepInv(ttl, max, w.history, SessionRuns.ClearOp, after.history);
    case _ =>
  }

  ghost predicate Run(ttl: int, max: nat, moves: seq<Move>, worlds: seq<World>) {
    && |worlds| == |moves| + 1 && worlds[0] == START
    && forall n :: 0 <= n < |moves| ==> NextAt(ttl, max, worlds, n, moves[n])
  }

  ghost predicate NextAt(ttl: int, max: nat, worlds: seq<World>, n: nat, move: Move)
    requires n + 1 < |worlds|
  {
    Next(ttl, max, worlds[n], move, worlds[n + 1])
  }

  lemma {:induction false} RunInv(ttl: int, max: nat, moves: seq<Move>, worlds: seq<World>, n: nat)
    requires Run(ttl, max, moves, worlds) && n <= |moves|
    ensures Inv(max, worlds[n])
  {
    if n > 0 {
      RunInv(ttl, max, moves, worlds, n - 1);
      assert NextAt(ttl, max, worlds, n - 1, moves[n - 1]);
      NextInv(ttl, max, worlds[n - 1], moves[n - 1], worlds[n]);
    }
  }

  lemma {:induction false} ReturnedForever(ttl: int, max: nat, moves: seq<Move>, worlds: seq<World>, m: nat, n: nat)
    requires Run(ttl, max, moves, worlds) && m <= n <= |moves| && worlds[m].returned != []
    ensures worlds[m].returned <= worlds[n].returned && worlds[n].next == worlds[m].next
    decreases n
  {
    if m < n {
      ReturnedForever(ttl, max, moves, worlds, m, n - 1);
      assert NextAt(ttl, max, worlds, n - 1, moves[n - 1]);
      RunInv(ttl, max, moves, worlds, n - 1);
    }
  }

  /** The requests that the first caller has collected and not cancelled yet. */
  function Uncancelled(w: World): set<nat> {
    if w.phase.Cancelling? then w.phase.pending else {}
  }

  /** In every interleaving, once any call of Revoke has returned, the store stays empty, no request is
      admitted any more, and an admitted request that has neither finished nor been cancelled is one
      the first caller is about to cancel; once that caller has returned there is none. */
  lemma RevocationIsFinal(ttl: int, max: nat, moves: seq<Move>, worlds: seq<World>, m: nat, n: nat)
    requires Run(ttl, max, moves, worlds) && m <= n <= |moves| && worlds[m].returned != []
    ensures worlds[n].history.store == map[]
    ensures worlds[n].next == worlds[m].next
    ensures worlds[n].requests - worlds[n].cancelled <= Uncancelled(worlds[n])
    ensures true in worlds[m].returned ==> Uncancelled(worlds[n]) == {}
  {
    ReturnedForever(ttl, max, moves, worlds, m, n);
    RunInv(ttl, max, moves, worlds, n);
  }

  /** At such a caller's return every unfinished request has been cancelled, in every run. */
  ghost predicate ReturnMeansCancelled(ttl: int, max: nat, first: bool) {
    forall moves, worlds: seq<World>, n: nat ::
      Run(ttl, max, moves, worlds) && n <= |moves| && first in worlds[n].returned
      ==> worlds[n].requests <= worlds[n].cancelled
  }

  /** A second caller returns while the first has collected the one request and cancelled nothing. */
  lemma SecondCallerReturnsEarly(ttl: int, max: nat) returns (moves: seq<Move>, worlds: seq<World>)
    ensures Run(ttl, max, moves, worlds) && |moves| == 5
    ensures false in worlds[5].returned && 1 in worlds[5].requests && 1 !in worlds[5].cancelled
  {
    moves := [AdmitMove, RevokeBegin, RevokeSnapshot(0), RevokeClear, RevokeBegin];
    var h := SessionRuns.DropExpired(SessionRuns.START, 0, ttl);
    var cleared := h.(store := map[], cleared := h.cleared + h.store.Keys);
    var w1 := START.(next := 1, requests := {1});
    var w2 := w1.(revoked := true, phase := Locked(false));
    var w3 := w2.(history := h, phase := Locked(true));
    var w4 := w3.(history := cleared, phase := Cancelling({1}));
    worlds := [START, w1, w2, w3, w4, w4.(returned := [false])];
    assert START.requests + {1} == {1};
    assert [] + [false] == [false];
    assert NextAt(ttl, max, worlds, 0, moves[0]) && NextAt(ttl, max, worlds, 1, moves[1]);
    assert NextAt(ttl, max, worlds, 2, moves[2]) && NextAt(ttl, max, worlds, 3, moves[3]);
    assert NextAt(ttl, max, worlds, 4, moves[4]);
  }

  /** The return of Revoke means that every request has been cancelled exactly for the first caller. */
  lemma ReturnMeansCancelledIff(ttl: int, max: nat, first: bool)
    ensures ReturnMeansCancelled(ttl, max, first) <==> first
  {
    if first {
      forall moves, worlds: seq<World>, n: nat
        | Run(ttl, max, moves, worlds) && n <= |moves| && first in worlds[n].returned
        ensures worlds[n].requests <= worlds[n].cancelled
      {
        RunInv(ttl, max, moves, worlds, n);
      }
    } else {
      var moves, worlds := SecondCallerReturnsEarly(ttl, max);
      assert !(worlds[5].requests <= worlds[5].cancelled);
    }
  }


  // ----- until it is revoked a server serves -----------------------------------------------------------

  /** Before the revocation, in every run: a request is admitted under the next number, a session operation
      takes effect, and a finished request is untracked and then cancelled. */
  lemma ServesUntilRevoked(ttl: int, max: nat, moves: seq<Move>, worlds: seq<World>, n: nat, after: World)
    requires Run(ttl, max, moves, worlds) && n <= |moves| && worlds[n].phase.NotBegun?
    ensures var w := worlds[n];
            && (Next(ttl, max, w, AdmitMove, after) <==>
                  after == w.(next := w.next + 1, requests := w.requests + {w.next + 1}))
            && w.next + 1 !in w.requests
            && (forall op: SessionRuns.Op :: op.Create? ==>
                  (Next(ttl, max, w, CreateMove(op), after) <==>
                     SessionRuns.Step(ttl, max, w.history, op, after.history) && after == w.(history := after.history)))
            && (forall k :: k in w.requests ==>
                  (Next(ttl, max, w, FinishTake(k), after) <==>
                     after == w.(requests := w.requests - {k}, finishing := w.finishing + {k})))
            && (forall k :: k in w.finishing ==>
                  (Next(ttl, max, w, FinishCancel(k), after) <==>
                     after == w.(finishing := w.finishing - {k}, cancelled := w.cancelled + {k})))
  {
    RunInv(ttl, max, moves, worlds, n);
  }
}
