/** Nobody waits for an abandoned handshake: while the session waits for an initialize reply, or for the
    acceptance of a notice that was read, the job that will bring or fail it is still at work
    (cmd/stdio-bridge/bridge.go). */
module BridgeProgress {
  import opened Basics
  import B = BridgeSession
  import opened BridgeProtocol
  import opened BridgeSafety
  import opened BridgeCancellation

  /** The job still has the session's open attempt to complete or to fail. */
  predicate Carries(w: World, j: nat, lifecycle: B.Lifecycle) {
    && j in w.jobs && w.jobs[j].lifecycle == lifecycle && w.jobs[j].attempt == w.session.attempt
    && w.session.attempt.Some? && !w.jobs[j].lifecycleComplete
    && !w.jobs[j].stage.Finishing? && !w.jobs[j].stage.Gone?
    && !(w.scanner.Releasing? && w.scanner.job == j)
  }

  ghost predicate Carried(w: World, lifecycle: B.Lifecycle) {
    exists j :: Carries(w, j, lifecycle)
  }

  /** The open attempt's notice has been read. */
  predicate NoticeRead(w: World) {
    w.session.attempt.Some? && w.session.attempt.value in w.session.seen
  }

  ghost predicate Attended(w: World) {
    && (w.session.phase == B.Initializing ==> Carried(w, B.Initialize))
    && (w.session.phase in {B.Initializing, B.WaitingInitialized} && NoticeRead(w) ==> Carried(w, B.InitializedNotice))
  }

  predicate SentNotice(w: World, job: Job) {
    && job.lifecycle == B.InitializedNotice && job.attempt.Some? && job.attempt == w.session.attempt
    && (job.stage.Ready? || job.stage.Flying?)
  }

  /** What the invariant needs to know about jobs. */
  ghost predicate JobsOk(w: World) {
    && B.Coherent(w.session)
    && (forall j :: j in w.jobs && w.jobs[j].lifecycle == B.Ordinary ==> w.jobs[j].lifecycleComplete)
    && (forall a :: a in w.session.seen ==> a < w.session.attempts)
    // a notice is sent only once its attempt has been answered
    && (forall j :: j in w.jobs && SentNotice(w, w.jobs[j]) ==> w.session.phase != B.Initializing)
    && (forall j :: j in w.jobs && w.jobs[j].attempt.Some? ==> w.jobs[j].attempt.value < w.session.attempts)
    && (forall j :: j in w.jobs && (w.jobs[j].stage.FailingAttempt? || w.jobs[j].stage == Writing(true)) ==>
          w.jobs[j].lifecycle == B.Initialize)
  }

  // ----- the same session ------------------------------------------------------------------------

  /** Jobs that carry an attempt still do. */
  lemma StillCarried(w: World, v: World, lifecycle: B.Lifecycle)
    requires Carried(w, lifecycle) && forall j :: Carries(w, j, lifecycle) ==> Carries(v, j, lifecycle)
    ensures Carried(v, lifecycle)
  {
    var j :| Carries(w, j, lifecycle);
    assert Carries(v, j, lifecycle);
  }

  lemma SameSession(w: World, v: World)
    requires Attended(w) && v.session == w.session
    requires forall j, lifecycle :: Carries(w, j, lifecycle) ==> Carries(v, j, lifecycle)
    ensures Attended(v)
  {
    if Carried(w, B.Initialize) {
      StillCarried(w, v, B.Initialize);
    }
    if Carried(w, B.InitializedNotice) {
      StillCarried(w, v, B.InitializedNotice);
    }
  }

  ghost predicate Good(w: World) {
    HandInv(w) && JobsOk(w) && Attended(w)
  }

  // ----- steps of workers --------------------------------------------------------------------------

  /** A job moves on without touching the session or its part in the handshake. */
  lemma StageGood(w: World, v: World, j: nat, stage: Stage)
    requires Good(w) && j in w.jobs && v.jobs == w.jobs[j := w.jobs[j].(stage := stage)]
    requires v.session == w.session && v.scanner == w.scanner
    requires stage.Gone? ==> w.jobs[j].stage.Finishing?
    requires !stage.Finishing? && (stage.Ready? || stage.Flying? ==> w.jobs[j].stage.Ready?)
    requires stage.FailingAttempt? || stage == Writing(true) ==> w.jobs[j].lifecycle == B.Initialize
    ensures JobsOk(v) && Attended(v)
  {
    SameSession(w, v);
  }

  lemma PlainWorker(w: World, step: Step)
    requires Good(w) && !ScannerStep(step) && step.job in w.jobs && WorkerNext(w, step).Some?
    requires step.Take? || step.Wake? || step.Timeout? || step.Send? || step.Write? || step.Finish?
    ensures var v := WorkerNext(w, step).value; JobsOk(v) && Attended(v)
  {
    var v, j := WorkerNext(w, step).value, step.job;
    StageGood(w, v, j, v.jobs[j].stage);
  }

  lemma AskGood(w: World, j: nat)
    requires Good(w) && j in w.jobs && w.jobs[j].stage.Asking?
    ensures JobsOk(DoAsk(w, j)) && Attended(DoAsk(w, j))
  {
    SameSession(w, DoAsk(w, j));
  }

  /** Giving up a job's part fails the session if the part was open. */
  lemma AbortGood(w: World, v: World, j: nat)
    requires Good(w) && j in w.jobs
    requires v.session == B.AbortLifecycle(w.session, w.jobs[j].lifecycle, w.jobs[j].attempt)
    requires forall i, lifecycle :: Carries(w, i, lifecycle) && i != j && v.session == w.session ==>
               Carries(v, i, lifecycle)
    ensures Attended(v)
  {
    if v.session == w.session && w.session.phase in {B.Initializing, B.WaitingInitialized} {
      var open := w.jobs[j].lifecycle;
      if Carried(w, B.Initialize) && w.session.phase == B.Initializing {
        var i :| Carries(w, i, B.Initialize);
        assert Carries(v, i, B.Initialize);
      }
      if Carried(w, B.InitializedNotice) {
        var i :| Carries(w, i, B.InitializedNotice);
        assert Carries(v, i, B.InitializedNotice);
      }
    }
  }

  lemma CloseGood(w: World, j: nat)
    requires Good(w) && j in w.jobs && w.jobs[j].stage.Closing?
    ensures JobsOk(DoClose(w, j)) && Attended(DoClose(w, j))
  {
    var v := DoClose(w, j);
    if w.jobs[j].lifecycleComplete {
      SameSession(w, v);
    } else {
      AbortGood(w, v, j);
    }
  }

  lemma FailGood(w: World, j: nat)
    requires Good(w) && j in w.jobs && w.jobs[j].stage.FailingAttempt? && w.jobs[j].lifecycle == B.Initialize
    ensures JobsOk(DoFailAttempt(w, j)) && Attended(DoFailAttempt(w, j))
  {
    AbortGood(w, DoFailAttempt(w, j), j);
  }

  /** An accepted notice completes its attempt, or has none to complete. */
  lemma AcceptGood(w: World, j: nat)
    requires Good(w) && j in w.jobs && w.jobs[j].stage.Flying? && w.jobs[j].lifecycle == B.InitializedNotice
    ensures JobsOk(DoReceive(w, j, Accepted)) && Attended(DoReceive(w, j, Accepted))
  {
    var v := DoReceive(w, j, Accepted);
    if v.session == w.session {
      assert SentNotice(w, w.jobs[j]) ==> w.session.phase != B.Initializing;
      assert !Carries(w, j, B.InitializedNotice) || w.session.phase !in {B.Initializing, B.WaitingInitialized};
      if w.session.phase in {B.Initializing, B.WaitingInitialized} {
        SameSession(w, v);
      }
    }
  }

  /** An initialize reply with an identity completes its attempt. */
  lemma NegotiateGood(w: World, j: nat, reply: Reply)
    requires Good(w) && j in w.jobs && w.jobs[j].stage.Flying? && w.jobs[j].lifecycle == B.Initialize
    requires reply.Body? && reply.valid && !reply.remoteError && B.SafeSessionId(reply.id)
             && !w.jobs[j].message.notification
    ensures JobsOk(DoReceive(w, j, reply)) && Attended(DoReceive(w, j, reply))
  {
    var v := DoReceive(w, j, reply);
    if v.session == w.session {
      if w.session.phase in {B.Initializing, B.WaitingInitialized} {
        InitializeDone(w, v, j);
      }
    } else if NoticeRead(w) {
      StillCarried(w, v, B.InitializedNotice);
    }
  }

  /** An initialize job that completes no open attempt. */
  lemma InitializeDone(w: World, v: World, j: nat)
    requires Attended(w) && v.session == w.session && v.scanner == w.scanner && j in w.jobs && j in v.jobs
    requires v.jobs == w.jobs[j := v.jobs[j]] && w.jobs[j].lifecycle == B.Initialize
    requires w.session.phase == B.Initializing ==> !Carries(w, j, B.Initialize)
    ensures Attended(v)
  {
    if w.session.phase == B.Initializing {
      StillCarried(w, v, B.Initialize);
    }
    if Carried(w, B.InitializedNotice) {
      StillCarried(w, v, B.InitializedNotice);
    }
  }

  lemma ReceiveGood(w: World, j: nat, reply: Reply)
    requires Good(w) && j in w.jobs && w.jobs[j].stage.Flying?
    ensures JobsOk(DoReceive(w, j, reply)) && Attended(DoReceive(w, j, reply))
  {
    var v, job := DoReceive(w, j, reply), w.jobs[j];
    if reply.Accepted? && job.lifecycle == B.InitializedNotice {
      AcceptGood(w, j);
    } else if reply.Body? && job.lifecycle == B.Initialize && !job.message.notification && reply.valid
              && !reply.remoteError && B.SafeSessionId(reply.id) {
      NegotiateGood(w, j, reply);
    } else {
      StageGood(w, v, j, v.jobs[j].stage);
    }
  }

  lemma WorkerGood(w: World, step: Step)
    requires Good(w) && !ScannerStep(step) && Next(w, step).Some?
    ensures JobsOk(Next(w, step).value) && Attended(Next(w, step).value)
  {
    match step
    case Ask(j) => AskGood(w, j);
    case Receive(j, reply) => ReceiveGood(w, j, reply);
    case FailAttempt(j) => FailGood(w, j);
    case Close(j) => CloseGood(w, j);
    case _ => PlainWorker(w, step);
  }

  // ----- steps of the scanner ------------------------------------------------------------------------

  lemma JoblessGood(w: World, step: Step)
    requires Good(w) && JoblessStep(step) && !step.Overload? && !step.ScannerShutdown? && ScannerNext(w, step).Some?
    ensures var v := ScannerNext(w, step).value; JobsOk(v) && Attended(v)
  {
    var v := ScannerNext(w, step).value;
    JoblessFrame(w, step);
    assert v.session == w.session;
    SameSession(w, v);
  }

  lemma DropGood(w: World, overload: bool)
    requires Good(w) && DoDrop(w, overload).Some?
    ensures var v := DoDrop(w, overload).value; JobsOk(v) && Attended(v)
  {
    AbortGood(w, DoDrop(w, overload).value, w.scanner.job);
  }

  lemma NewJobGood(w: World, v: World, message: Message)
    requires Good(w) && NewJob(w, message).Some? && !v.scanner.Releasing?
    requires v.session == w.session && v.jobs == NewJob(w, message).value.jobs
    ensures JobsOk(v) && Attended(v)
  {
    SameSession(w, v);
  }

  lemma HandedGood(w: World, step: Step)
    requires Good(w) && ScannerStep(step) && ScannerNext(w, step).Some?
    requires step.Read? || step.Forward? || step.Enqueue? || step.ScannerFinish?
    ensures var v := ScannerNext(w, step).value; JobsOk(v) && Attended(v)
  {
    match step
    case Enqueue => SameSession(w, DoEnqueue(w).value);
    case ScannerFinish => SameSession(w, DoScannerFinish(w).value);
    case _ => ReadGood(w, step);
  }

  lemma ReadGood(w: World, step: Step)
    requires Good(w) && (step.Read? || step.Forward?) && ScannerNext(w, step).Some?
    ensures var v := ScannerNext(w, step).value; JobsOk(v) && Attended(v)
  {
    var v := ScannerNext(w, step).value;
    var message := if step.Read? then step.message else w.scanner.message;
    if NewJob(w, message).Some? {
      NewJobGood(w, v, message);
    } else {
      SameSession(w, v);
    }
  }

  lemma InitializeGood(w: World)
    requires Good(w) && DoStartLifecycle(w).Some? && w.jobs[w.scanner.job].message.call.CallInitialize?
    ensures var v := DoStartLifecycle(w).value; JobsOk(v) && Attended(v)
  {
    var v, j := DoStartLifecycle(w).value, w.scanner.job;
    if v.session == w.session {
      SameSession(w, v);
    } else {
      assert Carries(v, j, B.Initialize);
    }
  }

  lemma NoticeGood(w: World)
    requires Good(w) && DoStartLifecycle(w).Some? && w.jobs[w.scanner.job].message.call.NoteInitialized?
    ensures var v := DoStartLifecycle(w).value; JobsOk(v) && Attended(v)
  {
    var v, j := DoStartLifecycle(w).value, w.scanner.job;
    var begun := B.BeginInitialized(w.session, w.jobs[j].message.notification);
    if begun.1.Begun? && begun.1.attempt.Some? {
      assert Carries(v, j, B.InitializedNotice);
      if w.session.phase == B.Initializing {
        StillCarried(w, v, B.Initialize);
      }
    } else if v.session == w.session {
      SameSession(w, v);
    }
  }

  lemma StartGood(w: World)
    requires Good(w) && DoStartLifecycle(w).Some?
    ensures var v := DoStartLifecycle(w).value; JobsOk(v) && Attended(v)
  {
    match w.jobs[w.scanner.job].message.call
    case CallInitialize => InitializeGood(w);
    case NoteInitialized => NoticeGood(w);
    case Other => SameSession(w, DoStartLifecycle(w).value);
  }

  lemma ScannerGood(w: World, step: Step)
    requires Good(w) && ScannerStep(step) && ScannerNext(w, step).Some?
    ensures var v := ScannerNext(w, step).value; JobsOk(v) && Attended(v)
  {
    match step
    case StartLifecycle => StartGood(w);
    case Overload => DropGood(w, true);
    case ScannerShutdown => DropGood(w, false);
    case Read(_) | Forward | Enqueue | ScannerFinish => HandedGood(w, step);
    case _ => JoblessGood(w, step);
  }

  lemma StepGood(w: World, step: Step)
    requires Good(w) && Next(w, step).Some?
    ensures Good(Next(w, step).value)
  {
    StepHand(w, step);
    if ScannerStep(step) {
      ScannerGood(w, step);
    } else {
      WorkerGood(w, step);
    }
  }

  lemma {:induction false} RunGood(w: World, steps: seq<Step>)
    requires Good(w)
    ensures Good(Run(w, steps))
    decreases |steps|
  {
    if steps != [] && Next(w, steps[0]).Some? {
      StepGood(w, steps[0]);
      RunGood(Next(w, steps[0]).value, steps[1..]);
    }
  }

  /** In every run: while the session is initializing, an initialize job of the open attempt is still to
      complete or fail it; and once the attempt's initialized notice was read, so is the notice's job. */
  lemma NoAbandonedAttempt(configuredId: string, steps: seq<Step>)
    ensures var w := Run(Begin(configuredId), steps);
            && (w.session.phase == B.Initializing ==> Carried(w, B.Initialize))
            && (w.session.phase in {B.Initializing, B.WaitingInitialized} && NoticeRead(w) ==>
                  Carried(w, B.InitializedNotice))
  {
    RunGood(Begin(configuredId), steps);
  }
}
