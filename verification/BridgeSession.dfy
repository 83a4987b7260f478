/** The session phase of the stdio bridge and the operations its mutex protects
    (cmd/stdio-bridge/bridge.go). */
module BridgeSession {
  import opened Basics

  datatype Phase = Uninitialized | Initializing | WaitingInitialized | Initialized | Failed

  /** What a job means for the session. */
  datatype Lifecycle = Ordinary | Initialize | InitializedNotice

  const DEFAULT_VERSION := "2025-03-26"

  /** The fields under the session mutex.  An initialization attempt is known by a number;
      `seen` holds the attempts whose initialized notice was read, and `epoch` counts how
      often the change channel was closed and replaced. */
  datatype Session = Session(phase: Phase, id: string, version: string,
                             attempt: Option<nat>, seen: set<nat>, attempts: nat, epoch: nat)
  {
    function Transition(next: Phase): Session {
      this.(phase := next, epoch := epoch + 1)
    }
  }

  function Start(configuredId: string): Session {
    if configuredId == "" then Session(Uninitialized, "", "", None, {}, 0, 0)
    else Session(Initialized, configuredId, DEFAULT_VERSION, None, {}, 0, 0)
  }

  datatype Begun = Begun(attempt: Option<nat>) | Refused

  function BeginInitialization(s: Session, valid: bool): (r: (Session, Begun)) {
    if !valid || s.phase != Uninitialized then (s, Refused)
    else
      (s.(attempt := Some(s.attempts), attempts := s.attempts + 1, id := "", version := "").Transition(Initializing),
       Begun(Some(s.attempts)))
  }

  function BeginInitialized(s: Session, notification: bool): (r: (Session, Begun)) {
    if !notification then (s, Refused)
    else
      match s.phase
      case Initializing | WaitingInitialized =>
        if s.attempt.None? || s.attempt.value in s.seen then (s, Refused)
        else (s.(seen := s.seen + {s.attempt.value}), Begun(s.attempt))
      case Initialized => (s, Begun(None))
      case Failed => (s, Refused)
      case Uninitialized => (s.Transition(Failed), Refused)
  }

  function CompleteInitialization(s: Session, attempt: Option<nat>, id: string, version: string): Session {
    if s.phase != Initializing || s.attempt != attempt then s
    else s.(id := id, version := version).Transition(WaitingInitialized)
  }

  function FailInitialization(s: Session, attempt: Option<nat>): Session {
    if s.phase != Initializing || s.attempt != attempt then s
    else s.(attempt := None, id := "", version := "").Transition(Failed)
  }

  function CompleteInitialized(s: Session, attempt: Option<nat>): Session {
    if attempt.None? || s.phase != WaitingInitialized || s.attempt != attempt then s
    else s.(attempt := None).Transition(Initialized)
  }

  function FailInitialized(s: Session, attempt: Option<nat>): Session {
    if s.phase == Failed || (attempt.Some? && s.attempt != attempt) then s
    else s.(attempt := None, id := "", version := "").Transition(Failed)
  }

  function AbortLifecycle(s: Session, lifecycle: Lifecycle, attempt: Option<nat>): Session {
    match lifecycle
    case Ordinary => s
    case Initialize => FailInitialization(s, attempt)
    case InitializedNotice => FailInitialized(s, attempt)
  }

  /** One look of requestIdentity at the session. */
  datatype Identity = Proceed(id: string, version: string) | Wait | Reject

  function RequestIdentity(s: Session, lifecycle: Lifecycle, attempt: Option<nat>): Identity {
    if lifecycle == Initialize then Proceed("", "")
    else
      match s.phase
      case Initialized => Proceed(s.id, s.version)
      case WaitingInitialized =>
        if lifecycle == InitializedNotice && s.attempt == attempt then Proceed(s.id, s.version) else Wait
      case Initializing => Wait
      case Failed | Uninitialized => Reject
  }

  /** Printable ASCII without spaces, 1 to 256 characters. */
  predicate SafeSessionId(id: string) {
    0 < |id| <= 256 && forall i :: 0 <= i < |id| ==> 0x21 as char <= id[i] <= 0x7e as char
  }

  /** The identifier is present exactly in the two phases that own one, and an attempt is
      open exactly in the two phases that wait for one. */
  predicate Coherent(s: Session) {
    && (s.id != "" <==> s.phase in {WaitingInitialized, Initialized})
    && (s.attempt.Some? <==> s.phase in {Initializing, WaitingInitialized})
    && (s.attempt.Some? ==> s.attempt.value < s.attempts)
  }

  function Rank(p: Phase): nat {
    match p
    case Uninitialized => 0
    case Initializing => 1
    case WaitingInitialized => 2
    case Initialized => 3
    case Failed => 4
  }

  /** A change the mutex-protected operations may make between two looks at the session. */
  predicate Moves(s: Session, t: Session) {
    && s.epoch <= t.epoch
    && Rank(s.phase) <= Rank(t.phase)
    && (s.epoch == t.epoch ==> t == s.(seen := t.seen))
    && (s.phase != Uninitialized ==> t.attempts == s.attempts)
    && (s.phase in {WaitingInitialized, Initialized} && t.phase != Failed ==> t.id == s.id && t.version == s.version)
  }

  /** The operations as the protocol calls them. */
  datatype Operation =
    | OpBeginInitialization(valid: bool)
    | OpBeginInitialized(notification: bool)
    | OpCompleteInitialization(attempt: Option<nat>, id: string, version: string)
    | OpCompleteInitialized(attempt: Option<nat>)
    | OpAbort(lifecycle: Lifecycle, attempt: Option<nat>)

  function Perform(s: Session, op: Operation): Session {
    match op
    case OpBeginInitialization(valid) => BeginInitialization(s, valid).0
    case OpBeginInitialized(notification) => BeginInitialized(s, notification).0
    case OpCompleteInitialization(attempt, id, version) => CompleteInitialization(s, attempt, id, version)
    case OpCompleteInitialized(attempt) => CompleteInitialized(s, attempt)
    case OpAbort(lifecycle, attempt) => AbortLifecycle(s, lifecycle, attempt)
  }

  /** Callers pass an identifier that sessionIDFromResponse accepted. */
  predicate Permitted(op: Operation) {
    op.OpCompleteInitialization? ==> SafeSessionId(op.id)
  }

  lemma StepCoherent(s: Session, op: Operation)
    requires Coherent(s) && Permitted(op)
    ensures Coherent(Perform(s, op)) && Moves(s, Perform(s, op))
  {
    match op
    case OpAbort(lifecycle, attempt) =>
      match lifecycle { case Ordinary => case Initialize => case InitializedNotice => }
    case _ =>
  }

  lemma MovesTransitive(s: Session, t: Session, u: Session)
    requires Moves(s, t) && Moves(t, u)
    ensures Moves(s, u)
  {
  }

  /** The phases a session passes through, one operation after another. */
  function Run(s: Session, ops: seq<Operation>): Session
    decreases |ops|
  {
    if ops == [] then s else Run(Perform(s, ops[0]), ops[1..])
  }

  /** Whatever the order of operations: the phase never goes back, a failed session stays
      failed, the identifier is non-empty exactly while it is owned, and once owned it only
      ever disappears by failing. */
  lemma {:induction false} RunCoherent(s: Session, ops: seq<Operation>)
    requires Coherent(s) && forall i :: 0 <= i < |ops| ==> Permitted(ops[i])
    ensures Coherent(Run(s, ops)) && Moves(s, Run(s, ops))
    ensures s.phase == Failed ==> Run(s, ops).phase == Failed
    decreases |ops|
  {
    if ops != [] {
      StepCoherent(s, ops[0]);
      RunCoherent(Perform(s, ops[0]), ops[1..]);
    }
  }

  /** At most one initialization attempt is ever opened. */
  lemma {:induction false} OneAttempt(configuredId: string, ops: seq<Operation>)
    requires forall i :: 0 <= i < |ops| ==> Permitted(ops[i])
    ensures Run(Start(configuredId), ops).attempts <= 1
  {
    OneAttemptFrom(Start(configuredId), ops);
  }

  lemma {:induction false} OneAttemptFrom(s: Session, ops: seq<Operation>)
    requires s.attempts <= 1 && (s.phase == Uninitialized ==> s.attempts == 0)
    ensures Run(s, ops).attempts <= 1
    decreases |ops|
  {
    if ops != [] {
      OneAttemptFrom(Perform(s, ops[0]), ops[1..]);
    }
  }

  /** The session part of the bridge object: every method runs under the session mutex. */
  class SessionGuard {
    var sessionState: Phase
    var sessionID: string
    var protocolVersion: string
    var initialization: Option<nat>
    var initializedSeen: set<nat>
    var attempts: nat
    var sessionChanged: nat

    ghost function View(): Session
      reads this
    {
      Session(sessionState, sessionID, protocolVersion, initialization, initializedSeen, attempts, sessionChanged)
    }

    constructor (configuredId: string)
      ensures View() == Start(configuredId) && Coherent(View())
    {
      sessionState := if configuredId != "" then Initialized else Uninitialized;
      sessionID := configuredId;
      protocolVersion := if configuredId != "" then DEFAULT_VERSION else "";
      initialization := None;
      initializedSeen := {};
      attempts := 0;
      sessionChanged := 0;
    }

    method Transition(state: Phase)
      modifies this
      ensures View() == old(View()).Transition(state)
    {
      sessionChanged := sessionChanged + 1;
      sessionState := state;
    }

    method BeginInit(valid: bool) returns (r: Begun)
      modifies this
      ensures (View(), r) == BeginInitialization(old(View()), valid)
    {
      if !valid || sessionState != Uninitialized {
        return Refused;
      }
      r := Begun(Some(attempts));
      initialization := Some(attempts);
      attempts := attempts + 1;
      sessionID := "";
      protocolVersion := "";
      Transition(Initializing);
    }

    method BeginNotice(notification: bool) returns (r: Begun)
      modifies this
      ensures (View(), r) == BeginInitialized(old(View()), notification)
    {
      if !notification {
        return Refused;
      }
      match sessionState
      case Initializing | WaitingInitialized =>
        if initialization.None? || initialization.value in initializedSeen {
          return Refused;
        }
        initializedSeen := initializedSeen + {initialization.value};
        return Begun(initialization);
      case Initialized =>
        return Begun(None);
      case Failed =>
        return Refused;
      case Uninitialized =>
        Transition(Failed);
        return Refused;
    }

    method CompleteInit(attempt: Option<nat>, id: string, version: string)
      modifies this
      ensures View() == CompleteInitialization(old(View()), attempt, id, version)
    {
      if sessionState != Initializing || initialization != attempt {
        return;
      }
      sessionID := id;
      protocolVersion := version;
      Transition(WaitingInitialized);
    }

    method FailInit(attempt: Option<nat>)
      modifies this
      ensures View() == FailInitialization(old(View()), attempt)
    {
      if sessionState != Initializing || initialization != attempt {
        return;
      }
      Clear();
    }

    method CompleteNotice(attempt: Option<nat>)
      modifies this
      ensures View() == CompleteInitialized(old(View()), attempt)
    {
      if attempt.None? || sessionState != WaitingInitialized || initialization != attempt {
        return;
      }
      initialization := None;
      Transition(Initialized);
    }

    method FailNotice(attempt: Option<nat>)
      modifies this
      ensures View() == FailInitialized(old(View()), attempt)
    {
      if sessionState == Failed || (attempt.Some? && initialization != attempt) {
        return;
      }
      Clear();
    }

    method Clear()
      modifies this
      ensures View() == old(View()).(attempt := None, id := "", version := "").Transition(Failed)
    {
      initialization := None;
      sessionID := "";
      protocolVersion := "";
      Transition(Failed);
    }
  }
}
