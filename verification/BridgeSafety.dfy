/** What every interleaving of the bridge keeps. */
module BridgeSafety {
  import opened Basics
  import opened BridgeSession
  import opened BridgeProtocol

  // ----- identity ---------------------------------------------------------

  /** An identity a job may hold or have sent. */
  predicate GoodIdentity(w: World, lifecycle: Lifecycle, id: string, version: string) {
    match lifecycle
    case Initialize => id == "" && version == ""
    case InitializedNotice => w.negotiated == Some((id, version))
    case Ordinary => w.everInitialized && w.negotiated == Some((id, version))
  }

  predicate GoodJobIdentity(w: World, job: Job) {
    match job.stage
    case Ready(id, version) => GoodIdentity(w, job.lifecycle, id, version)
    case Parked(epoch) =>
      && epoch <= w.session.epoch
      && (epoch == w.session.epoch ==> RequestIdentity(w.session, job.lifecycle, job.attempt) == Wait)
    case _ => true
  }

  predicate SessionHistory(w: World) {
    && Coherent(w.session)
    && (w.session.phase in {Uninitialized, Initializing} ==> w.negotiated.None? && !w.everInitialized)
    && (w.session.phase in {WaitingInitialized, Initialized} ==>
          w.negotiated == Some((w.session.id, w.session.version)))
    && (w.session.phase == WaitingInitialized ==> !w.everInitialized)
    && (w.session.phase == Initialized ==> w.everInitialized)
    && (w.everInitialized ==> w.negotiated.Some?)
    && (w.negotiated.Some? ==> w.negotiated.value.0 != "")
  }

  ghost predicate IdentityInv(w: World) {
    && SessionHistory(w)
    && (forall j :: j in w.jobs ==> GoodJobIdentity(w, w.jobs[j]))
    && (forall k :: 0 <= k < |w.sent| ==> GoodIdentity(w, w.sent[k].lifecycle, w.sent[k].id, w.sent[k].version))
  }

  lemma OperateHistory(w: World, op: Operation)
    requires SessionHistory(w) && Permitted(op)
    ensures SessionHistory(Operate(w, op))
    ensures Moves(w.session, Operate(w, op).session)
    ensures w.negotiated.Some? ==> Operate(w, op).negotiated == w.negotiated
    ensures w.everInitialized ==> Operate(w, op).everInitialized
  {
    StepCoherent(w.session, op);
    match op
    case OpAbort(lifecycle, attempt) =>
      match lifecycle { case Ordinary => case Initialize => case InitializedNotice => }
    case _ =>
  }

  /** A waiter that captured the current channel still has to wait. */
  lemma SeenIsIrrelevant(s: Session, t: Session, lifecycle: Lifecycle, attempt: Option<nat>)
    requires Moves(s, t) && s.epoch == t.epoch
    ensures RequestIdentity(t, lifecycle, attempt) == RequestIdentity(s, lifecycle, attempt)
  {
  }

  lemma OperateIdentity(w: World, op: Operation)
    requires IdentityInv(w) && Permitted(op)
    ensures IdentityInv(Operate(w, op))
  {
    OperateHistory(w, op);
    var v := Operate(w, op);
    forall j | j in v.jobs
      ensures GoodJobIdentity(v, v.jobs[j])
    {
      assert GoodJobIdentity(w, w.jobs[j]);
      if v.session.epoch == w.session.epoch {
        SeenIsIrrelevant(w.session, v.session, w.jobs[j].lifecycle, w.jobs[j].attempt);
      }
    }
  }

  lemma SetJobIdentity(w: World, j: nat, job: Job)
    requires IdentityInv(w) && GoodJobIdentity(w, job)
    ensures IdentityInv(SetJob(w, j, job))
  {
    var v := SetJob(w, j, job);
    assert forall k :: 0 <= k < |v.sent| ==> v.sent[k] == w.sent[k];
  }

  /** Fields the identity invariant does not read. */
  lemma FrameIdentity(w: World, v: World)
    requires IdentityInv(w)
    requires v.session == w.session && v.jobs == w.jobs && v.sent == w.sent
    requires v.negotiated == w.negotiated && v.everInitialized == w.everInitialized
    ensures IdentityInv(v)
  {
  }

  lemma NewJobIdentity(w: World, message: Message)
    requires IdentityInv(w) && NewJob(w, message).Some?
    ensures IdentityInv(NewJob(w, message).value)
  {
    var job := Job(message, Ordinary, None, true, Held);
    SetJobIdentity(w, w.nextJob, job);
    FrameIdentity(SetJob(w, w.nextJob, job), NewJob(w, message).value);
  }

  predicate InHand(scanner: Scanner, j: nat) {
    match scanner
    case Holding(i, _) => i == j
    case Dispatching(i, _) => i == j
    case Releasing(i, _, _, _) => i == j
    case _ => false
  }

  /** The scanner holds one job, which nobody else works on. */
  predicate HandInv(w: World) {
    && (forall j :: j in w.jobs ==> j < w.nextJob)
    && (forall j :: j in w.jobs && w.jobs[j].stage == Held ==> InHand(w.scanner, j))
    && match w.scanner
       case Idle | Stopped | Forwarding(_) | HoldingEmpty => true
       case Holding(j, _) => j in w.jobs && w.jobs[j].stage == Held && w.jobs[j].lifecycle == Ordinary
       case Dispatching(j, _) => j in w.jobs && w.jobs[j].stage == Held
       case Releasing(j, _, _, _) => j in w.jobs && w.jobs[j].stage == Held
       case Answering(j) => j in w.jobs && w.jobs[j].stage == Gone
  }

  lemma ReadIdentity(w: World, step: Step)
    requires HandInv(w) && IdentityInv(w) && Next(w, step).Some?
    requires step.Read? || step.ReadCancellation? || step.Forward?
    ensures IdentityInv(Next(w, step).value)
  {
    var v := Next(w, step).value;
    if step.ReadCancellation? {
      FrameIdentity(w, v);
    } else {
      var message := if step.Read? then step.message else w.scanner.message;
      if NewJob(w, message).Some? {
        NewJobIdentity(w, message);
        FrameIdentity(NewJob(w, message).value, v);
      } else {
        FrameIdentity(w, v);
      }
    }
  }

  lemma StartIdentity(w: World)
    requires HandInv(w) && IdentityInv(w) && DoStartLifecycle(w).Some?
    ensures IdentityInv(DoStartLifecycle(w).value)
  {
    var j := w.scanner.job;
    var job := w.jobs[j];
    match job.message.call
    case Other => FrameIdentity(w, DoStartLifecycle(w).value);
    case CallInitialize =>
      var op := OpBeginInitialization(job.message.key.Some? && job.message.valid);
      OperateIdentity(w, op);
      StartOrReleaseIdentity(Operate(w, op), j, Initialize, BeginInitialization(w.session, op.valid).1, true);
    case NoteInitialized =>
      var op := OpBeginInitialized(job.message.notification);
      OperateIdentity(w, op);
      var begun := BeginInitialized(w.session, op.notification).1;
      StartOrReleaseIdentity(Operate(w, op), j, InitializedNotice, begun, false);
  }

  lemma StartOrReleaseIdentity(w: World, j: nat, lifecycle: Lifecycle, begun: Begun, answerAfter: bool)
    requires IdentityInv(w) && j in w.jobs && w.jobs[j].stage == Held
    ensures IdentityInv(StartOrRelease(w, j, lifecycle, begun, answerAfter).value)
  {
    var v := StartOrRelease(w, j, lifecycle, begun, answerAfter).value;
    if begun.Refused? {
      FrameIdentity(w, v);
    } else {
      SetJobIdentity(w, j, v.jobs[j]);
      FrameIdentity(SetJob(w, j, v.jobs[j]), v);
    }
  }

  lemma DropIdentity(w: World, overload: bool)
    requires HandInv(w) && IdentityInv(w) && DoDrop(w, overload).Some?
    ensures IdentityInv(DoDrop(w, overload).value)
  {
    var job := w.jobs[w.scanner.job];
    var op := OpAbort(job.lifecycle, job.attempt);
    OperateIdentity(w, op);
    FrameIdentity(Operate(w, op), DoDrop(w, overload).value);
  }

  lemma FinishedIdentity(w: World, j: nat)
    requires IdentityInv(w) && j in w.jobs
    ensures IdentityInv(Finished(w, j))
  {
    SetJobIdentity(w, j, w.jobs[j].(stage := Gone));
    FrameIdentity(AtStage(w, j, Gone), Finished(w, j));
  }

  lemma ScannerIdentity(w: World, step: Step)
    requires HandInv(w) && IdentityInv(w) && Next(w, step).Some?
    requires step.Enqueue? || step.ScannerAnswer? || step.ScannerFinish? || step.StopScanning?
             || step.EnqueueEmpty? || step.DropEmpty? || step.TakeEmpty?
    ensures IdentityInv(Next(w, step).value)
  {
    var v := Next(w, step).value;
    match step
    case Enqueue =>
      SetJobIdentity(w, w.scanner.job, w.jobs[w.scanner.job].(stage := Queued));
      FrameIdentity(AtStage(w, w.scanner.job, Queued), v);
    case ScannerFinish =>
      FinishedIdentity(w, w.scanner.job);
      FrameIdentity(Finished(w, w.scanner.job), v);
    case _ =>
      FrameIdentity(w, v);
  }

  /** The look at the session hands out only identities the session owns. */
  lemma AskIdentity(w: World, j: nat)
    requires IdentityInv(w) && j in w.jobs
    ensures IdentityInv(DoAsk(w, j))
  {
    SetJobIdentity(w, j, DoAsk(w, j).jobs[j]);
  }

  lemma SendIdentity(w: World, j: nat, prepared: bool)
    requires IdentityInv(w) && j in w.jobs && w.jobs[j].stage.Ready?
    ensures IdentityInv(DoSend(w, j, prepared))
  {
    var v := DoSend(w, j, prepared);
    SetJobIdentity(w, j, v.jobs[j]);
    var u := SetJob(w, j, v.jobs[j]);
    assert GoodJobIdentity(w, w.jobs[j]);
    forall k | 0 <= k < |v.sent|
      ensures GoodIdentity(v, v.sent[k].lifecycle, v.sent[k].id, v.sent[k].version)
    {
      if k < |w.sent| {
        assert v.sent[k] == w.sent[k];
      }
    }
    forall i | i in v.jobs
      ensures GoodJobIdentity(v, v.jobs[i])
    {
      assert GoodJobIdentity(u, u.jobs[i]);
    }
  }

  lemma ReceiveIdentity(w: World, j: nat, reply: Reply)
    requires IdentityInv(w) && j in w.jobs
    ensures IdentityInv(DoReceive(w, j, reply))
  {
    var v := DoReceive(w, j, reply);
    var job := w.jobs[j];
    if reply.Accepted? && job.lifecycle == InitializedNotice {
      var op := OpCompleteInitialized(job.attempt);
      OperateIdentity(w, op);
      SetJobIdentity(Operate(w, op), j, v.jobs[j]);
    } else if reply.Body? && job.lifecycle == Initialize && !job.message.notification && reply.valid
              && !reply.remoteError && SafeSessionId(reply.id) {
      var op := OpCompleteInitialization(job.attempt, reply.id, reply.version);
      OperateIdentity(w, op);
      SetJobIdentity(Operate(w, op), j, v.jobs[j]);
    } else {
      SetJobIdentity(w, j, v.jobs[j]);
    }
  }

  lemma FailAttemptIdentity(w: World, j: nat)
    requires IdentityInv(w) && j in w.jobs
    ensures IdentityInv(DoFailAttempt(w, j))
  {
    var op := OpAbort(Initialize, w.jobs[j].attempt);
    OperateIdentity(w, op);
    SetJobIdentity(Operate(w, op), j, DoFailAttempt(w, j).jobs[j]);
  }

  lemma CloseIdentity(w: World, j: nat)
    requires IdentityInv(w) && j in w.jobs
    ensures IdentityInv(DoClose(w, j))
  {
    var job := w.jobs[j];
    var op := OpAbort(job.lifecycle, job.attempt);
    OperateIdentity(w, op);
    SetJobIdentity(if job.lifecycleComplete then w else Operate(w, op), j, job.(stage := Finishing));
  }

  lemma WriteIdentity(w: World, j: nat)
    requires IdentityInv(w) && j in w.jobs && DoWrite(w, j).Some?
    ensures IdentityInv(DoWrite(w, j).value)
  {
    var v := DoWrite(w, j).value;
    SetJobIdentity(w, j, v.jobs[j]);
    FrameIdentity(SetJob(w, j, v.jobs[j]), v);
  }

  /** Every step keeps the identity invariant. */
  lemma StepIdentity(w: World, step: Step)
    requires HandInv(w) && IdentityInv(w) && Next(w, step).Some?
    ensures IdentityInv(Next(w, step).value)
  {
    match step
    case Read(_) | ReadCancellation(_, _) | Forward => ReadIdentity(w, step);
    case StartLifecycle => StartIdentity(w);
    case Overload => DropIdentity(w, true);
    case ScannerShutdown => DropIdentity(w, false);
    case Enqueue | ScannerAnswer | ScannerFinish | StopScanning => ScannerIdentity(w, step);
    case EnqueueEmpty | DropEmpty | TakeEmpty => ScannerIdentity(w, step);
    case Take(j) => SetJobIdentity(w, j, w.jobs[j].(stage := Asking));
    case Ask(j) => AskIdentity(w, j);
    case Wake(j) => SetJobIdentity(w, j, w.jobs[j].(stage := Asking));
    case Timeout(j) => SetJobIdentity(w, j, w.jobs[j].(stage := Reporting));
    case Send(j, prepared) => SendIdentity(w, j, prepared);
    case Receive(j, reply) => ReceiveIdentity(w, j, reply);
    case Write(j) => WriteIdentity(w, j);
    case FailAttempt(j) => FailAttemptIdentity(w, j);
    case Close(j) => CloseIdentity(w, j);
    case Finish(j) => FinishedIdentity(w, j);
  }

  // ----- the scanner's job and the in-flight table --------------------------

  /** A job is registered under its id from newJob to finish, and nobody else is. */
  ghost predicate InflightInv(w: World) {
    && (forall k :: k in w.inflight ==>
          && w.inflight[k] in w.jobs
          && w.jobs[w.inflight[k]].message.key == Some(k)
          && w.jobs[w.inflight[k]].stage != Gone)
    && (forall j :: j in w.jobs && w.jobs[j].stage != Gone && w.jobs[j].message.key.Some? ==>
          w.jobs[j].message.key.value in w.inflight && w.inflight[w.jobs[j].message.key.value] == j)
  }

  lemma SetJobInflight(w: World, v: World, j: nat, job: Job)
    requires InflightInv(w) && j in w.jobs && w.jobs[j].stage != Gone
    requires job.message == w.jobs[j].message && job.stage != Gone
    requires v.jobs == w.jobs[j := job] && v.inflight == w.inflight
    ensures InflightInv(v)
  {
  }

  lemma FinishedInflight(w: World, v: World, j: nat)
    requires InflightInv(w) && j in w.jobs
    requires v.jobs == Finished(w, j).jobs && v.inflight == Finished(w, j).inflight
    ensures InflightInv(v)
  {
  }

  lemma NewJobInflight(w: World, v: World, message: Message)
    requires HandInv(w) && InflightInv(w) && NewJob(w, message).Some?
    requires v.jobs == NewJob(w, message).value.jobs && v.inflight == NewJob(w, message).value.inflight
    ensures InflightInv(v)
  {
  }

  predicate PastLine(stage: Stage) {
    stage.FailingAttempt? || stage.Closing? || stage.Finishing? || stage.Gone?
  }

  /** What a worker's step leaves alone: other jobs, the scanner, and ids until finish. */
  predicate WorkerShape(w: World, v: World, j: nat) {
    && j in w.jobs && j in v.jobs && !w.jobs[j].stage.Held? && !w.jobs[j].stage.Gone?
    && v.jobs == w.jobs[j := v.jobs[j]]
    && v.jobs[j].message == w.jobs[j].message && !v.jobs[j].stage.Held?
    && v.inflight == (if v.jobs[j].stage.Gone? then Forget(w, j) else w.inflight)
    && v.scanner == w.scanner && v.nextJob == w.nextJob && v.forwarded == w.forwarded
    && v.fate == w.fate
    && (PastLine(w.jobs[j].stage) ==> PastLine(v.jobs[j].stage))
    && v.lines == (if v.lines == w.lines || PastLine(w.jobs[j].stage) || !PastLine(v.jobs[j].stage) then w.lines
                   else w.lines + [j])
  }

  lemma WaitingSteps(w: World, step: Step)
    requires !ScannerStep(step) && step.job in w.jobs && WorkerNext(w, step).Some?
    requires step.Take? || step.Ask? || step.Wake? || step.Timeout? || step.Send?
    ensures WorkerShape(w, WorkerNext(w, step).value, step.job)
  {
  }

  lemma BodySteps(w: World, step: Step)
    requires !ScannerStep(step) && step.job in w.jobs && WorkerNext(w, step).Some?
    requires step.Receive? && step.reply.Body?
    ensures WorkerShape(w, WorkerNext(w, step).value, step.job)
  {
  }

  lemma ReplySteps(w: World, step: Step)
    requires !ScannerStep(step) && step.job in w.jobs && WorkerNext(w, step).Some?
    requires step.Receive? && !step.reply.Body?
    ensures WorkerShape(w, WorkerNext(w, step).value, step.job)
  {
  }

  lemma ClosingSteps(w: World, step: Step)
    requires !ScannerStep(step) && step.job in w.jobs && WorkerNext(w, step).Some?
    requires step.Write? || step.FailAttempt? || step.Close? || step.Finish?
    ensures WorkerShape(w, WorkerNext(w, step).value, step.job)
  {
  }

  lemma WorkerSteps(w: World, step: Step)
    requires HandInv(w) && Next(w, step).Some? && !ScannerStep(step)
    ensures WorkerShape(w, Next(w, step).value, step.job)
  {
    if step.Receive? {
      if step.reply.Body? {
        BodySteps(w, step);
      } else {
        ReplySteps(w, step);
      }
    } else if step.Write? || step.FailAttempt? || step.Close? || step.Finish? {
      ClosingSteps(w, step);
    } else {
      WaitingSteps(w, step);
    }
  }

  lemma ReadInflight(w: World, step: Step)
    requires HandInv(w) && InflightInv(w) && Next(w, step).Some?
    requires step.Read? || step.Forward?
    ensures InflightInv(Next(w, step).value)
  {
    var v := Next(w, step).value;
    if v.nextJob != w.nextJob {
      NewJobInflight(w, v, if step.Read? then step.message else w.scanner.message);
    }
  }

  /** Scanner steps that change no job and no registration. */
  predicate JoblessStep(step: Step) {
    || step.ReadCancellation? || step.EnqueueEmpty? || step.DropEmpty? || step.TakeEmpty? || step.Overload?
    || step.ScannerShutdown? || step.ScannerAnswer? || step.StopScanning?
  }

  lemma JoblessFrame(w: World, step: Step)
    requires JoblessStep(step) && ScannerNext(w, step).Some?
    ensures var v := ScannerNext(w, step).value;
            v.jobs == w.jobs && v.inflight == w.inflight && v.nextJob == w.nextJob
  {
  }

  lemma ScannerInflight(w: World, step: Step)
    requires HandInv(w) && InflightInv(w) && Next(w, step).Some? && ScannerStep(step)
    ensures InflightInv(Next(w, step).value)
  {
    match step
    case Read(_) | Forward => ReadInflight(w, step);
    case StartLifecycle | Enqueue => HeldInflight(w, step);
    case ScannerFinish => FinishedInflight(w, Next(w, step).value, w.scanner.job);
    case _ => JoblessFrame(w, step);
  }

  /** What beginning a lifecycle leaves alone. */
  predicate StartShape(w: World, v: World, j: nat) {
    && j in w.jobs && j in v.jobs && v.jobs == w.jobs[j := v.jobs[j]]
    && v.jobs[j].message == w.jobs[j].message && v.jobs[j].stage == w.jobs[j].stage
    && v.inflight == w.inflight && v.nextJob == w.nextJob && v.lines == w.lines
    && v.forwarded == w.forwarded && v.fate == w.fate
    && (v.scanner == Dispatching(j, false) || (v.scanner.Releasing? && v.scanner.job == j && !v.scanner.answer))
  }

  lemma StartSteps(w: World)
    requires DoStartLifecycle(w).Some?
    ensures w.scanner.Holding? && StartShape(w, DoStartLifecycle(w).value, w.scanner.job)
  {
    var j := w.scanner.job;
    if w.jobs[j].message.call.Other? {
      assert w.jobs == w.jobs[j := w.jobs[j]];
    }
  }

  lemma HeldInflight(w: World, step: Step)
    requires HandInv(w) && InflightInv(w) && Next(w, step).Some? && (step.StartLifecycle? || step.Enqueue?)
    ensures InflightInv(Next(w, step).value)
  {
    var v := Next(w, step).value;
    if step.StartLifecycle? {
      StartSteps(w);
    }
    SetJobInflight(w, v, w.scanner.job, v.jobs[w.scanner.job]);
  }

  lemma WorkerInflight(w: World, v: World, j: nat)
    requires HandInv(w) && InflightInv(w) && WorkerShape(w, v, j)
    ensures InflightInv(v)
  {
  }

  /** Every step keeps the in-flight table. */
  lemma StepInflight(w: World, step: Step)
    requires HandInv(w) && InflightInv(w) && Next(w, step).Some?
    ensures InflightInv(Next(w, step).value)
  {
    if ScannerStep(step) {
      ScannerInflight(w, step);
    } else {
      WorkerSteps(w, step);
      WorkerInflight(w, Next(w, step).value, step.job);
    }
  }

  lemma ReadHand(w: World, step: Step)
    requires HandInv(w) && Next(w, step).Some? && (step.Read? || step.Forward?)
    ensures HandInv(Next(w, step).value)
  {
  }

  lemma StartHand(w: World)
    requires HandInv(w) && DoStartLifecycle(w).Some?
    ensures HandInv(DoStartLifecycle(w).value)
  {
    StartSteps(w);
  }

  lemma LeaveHand(w: World, step: Step)
    requires HandInv(w) && Next(w, step).Some? && (step.Enqueue? || step.ScannerFinish?)
    ensures HandInv(Next(w, step).value)
  {
  }

  lemma JoblessHand(w: World, step: Step)
    requires HandInv(w) && Next(w, step).Some? && JoblessStep(step)
    ensures HandInv(Next(w, step).value)
  {
    JoblessFrame(w, step);
  }

  lemma ScannerHand(w: World, step: Step)
    requires HandInv(w) && Next(w, step).Some? && ScannerStep(step)
    ensures HandInv(Next(w, step).value)
  {
    if JoblessStep(step) {
      JoblessHand(w, step);
    } else if step.Read? || step.Forward? {
      ReadHand(w, step);
    } else if step.StartLifecycle? {
      StartHand(w);
    } else {
      LeaveHand(w, step);
    }
  }

  /** Workers never touch the job in the scanner's hands. */
  lemma StepHand(w: World, step: Step)
    requires HandInv(w) && Next(w, step).Some?
    ensures HandInv(Next(w, step).value)
  {
    if ScannerStep(step) {
      ScannerHand(w, step);
    } else {
      WorkerSteps(w, step);
      WorkerHand(w, Next(w, step).value, step.job);
    }
  }

  lemma WorkerHand(w: World, v: World, j: nat)
    requires HandInv(w) && WorkerShape(w, v, j)
    ensures HandInv(v)
  {
  }

  // ----- response lines -----------------------------------------------------

  /** The job is past the point where its line is written. */
  predicate Answered(w: World, j: nat)
    requires j in w.jobs
  {
    || PastLine(w.jobs[j].stage)
    || (w.scanner.Releasing? && w.scanner.job == j && !w.scanner.answer && !w.scanner.answerAfter)
  }

  /** No job has two lines, and none that may still write one has any. */
  ghost predicate LinesInv(w: World) {
    && (forall i, k :: 0 <= i < k < |w.lines| ==> w.lines[i] != w.lines[k])
    && (forall i :: 0 <= i < |w.lines| ==> w.lines[i] in w.jobs && Answered(w, w.lines[i]))
    && (w.scanner.Answering? ==> w.scanner.job !in w.lines)
    && (w.scanner.Releasing? ==> !(w.scanner.answer && w.scanner.answerAfter))
  }

  lemma LinesKept(w: World, v: World)
    requires LinesInv(w) && v.lines == w.lines
    requires forall j :: j in w.jobs && Answered(w, j) ==> j in v.jobs && Answered(v, j)
    requires v.scanner.Answering? ==> v.scanner.job !in v.lines
    requires v.scanner.Releasing? ==> !(v.scanner.answer && v.scanner.answerAfter)
    ensures LinesInv(v)
  {
  }

  lemma LinesAdded(w: World, v: World, x: nat)
    requires LinesInv(w) && v.lines == w.lines + [x] && x !in w.lines
    requires x in v.jobs && Answered(v, x)
    requires forall j :: j in w.jobs && Answered(w, j) ==> j in v.jobs && Answered(v, j)
    requires v.scanner.Answering? ==> v.scanner.job !in v.lines
    requires v.scanner.Releasing? ==> !(v.scanner.answer && v.scanner.answerAfter)
    ensures LinesInv(v)
  {
  }

  lemma AnswerLines(w: World)
    requires HandInv(w) && LinesInv(w) && DoScannerAnswer(w).Some?
    ensures LinesInv(DoScannerAnswer(w).value)
  {
    LinesAdded(w, DoScannerAnswer(w).value, w.scanner.job);
  }

  lemma HeldLines(w: World, step: Step)
    requires HandInv(w) && LinesInv(w) && Next(w, step).Some?
    requires step.StartLifecycle? || step.Enqueue? || step.ScannerFinish?
    ensures LinesInv(Next(w, step).value)
  {
    if step.StartLifecycle? {
      StartSteps(w);
    }
    LinesKept(w, Next(w, step).value);
  }

  lemma OtherLines(w: World, step: Step)
    requires HandInv(w) && LinesInv(w) && Next(w, step).Some? && ScannerStep(step)
    requires !step.StartLifecycle? && !step.Enqueue? && !step.ScannerFinish? && !step.ScannerAnswer?
    ensures LinesInv(Next(w, step).value)
  {
    LinesKept(w, Next(w, step).value);
  }

  lemma ScannerLines(w: World, step: Step)
    requires HandInv(w) && LinesInv(w) && Next(w, step).Some? && ScannerStep(step)
    ensures LinesInv(Next(w, step).value)
  {
    match step
    case ScannerAnswer => AnswerLines(w);
    case StartLifecycle | Enqueue | ScannerFinish => HeldLines(w, step);
    case _ => OtherLines(w, step);
  }

  /** Every step keeps the lines invariant. */
  lemma StepLines(w: World, step: Step)
    requires HandInv(w) && LinesInv(w) && Next(w, step).Some?
    ensures LinesInv(Next(w, step).value)
  {
    if ScannerStep(step) {
      ScannerLines(w, step);
    } else {
      WorkerSteps(w, step);
      WorkerLines(w, Next(w, step).value, step.job);
    }
  }

  lemma WorkerLines(w: World, v: World, j: nat)
    requires HandInv(w) && LinesInv(w) && WorkerShape(w, v, j)
    ensures LinesInv(v)
  {
    if v.lines == w.lines {
      LinesKept(w, v);
    } else {
      LinesAdded(w, v, j);
    }
  }

  // ----- whole runs ---------------------------------------------------------

  ghost predicate Inv(w: World) {
    HandInv(w) && IdentityInv(w) && InflightInv(w) && LinesInv(w)
  }

  /** The world after a run; a step that is not enabled ends it. */
  function Run(w: World, steps: seq<Step>): World
    decreases |steps|
  {
    if steps == [] then w
    else
      match Next(w, steps[0])
      case None => w
      case Some(v) => Run(v, steps[1..])
  }

  lemma StartInv(configuredId: string)
    ensures Inv(Begin(configuredId))
  {
  }

  lemma {:induction false} RunInv(w: World, steps: seq<Step>)
    requires Inv(w)
    ensures Inv(Run(w, steps))
    decreases |steps|
  {
    if steps != [] && Next(w, steps[0]).Some? {
      StepHand(w, steps[0]);
      StepIdentity(w, steps[0]);
      StepInflight(w, steps[0]);
      StepLines(w, steps[0]);
      RunInv(Next(w, steps[0]).value, steps[1..]);
    }
  }

  // ----- what the invariants mean for whole runs ----------------------------

  /** How the session and its history may differ between two moments. */
  ghost predicate Later(w: World, v: World) {
    && Moves(w.session, v.session)
    && (w.negotiated.Some? ==> v.negotiated == w.negotiated)
    && (w.everInitialized ==> v.everInitialized)
  }

  lemma OperateLater(w: World, op: Operation)
    requires SessionHistory(w) && Permitted(op)
    ensures Later(w, Operate(w, op))
  {
    OperateHistory(w, op);
  }

  lemma ReceiveLater(w: World, j: nat, reply: Reply)
    requires IdentityInv(w) && j in w.jobs
    ensures Later(w, DoReceive(w, j, reply))
  {
    OperateLater(w, OpCompleteInitialized(w.jobs[j].attempt));
    if reply.Body? && SafeSessionId(reply.id) {
      OperateLater(w, OpCompleteInitialization(w.jobs[j].attempt, reply.id, reply.version));
    }
  }

  /** Steps that do not touch the session. */
  lemma ScannerLater(w: World, step: Step)
    requires IdentityInv(w) && ScannerStep(step) && ScannerNext(w, step).Some?
    requires !step.StartLifecycle? && !step.Overload? && !step.ScannerShutdown?
    ensures Later(w, ScannerNext(w, step).value)
  {
  }

  lemma WorkerLater(w: World, step: Step)
    requires IdentityInv(w) && !ScannerStep(step) && step.job in w.jobs && WorkerNext(w, step).Some?
    requires !step.Receive? && !step.FailAttempt? && !step.Close?
    ensures Later(w, WorkerNext(w, step).value)
  {
  }

  lemma StartLater(w: World)
    requires IdentityInv(w) && DoStartLifecycle(w).Some?
    ensures Later(w, DoStartLifecycle(w).value)
  {
    var message := w.jobs[w.scanner.job].message;
    OperateLater(w, OpBeginInitialization(message.key.Some? && message.valid));
    OperateLater(w, OpBeginInitialized(message.notification));
  }

  lemma DropLater(w: World, overload: bool)
    requires IdentityInv(w) && DoDrop(w, overload).Some?
    ensures Later(w, DoDrop(w, overload).value)
  {
    OperateLater(w, OpAbort(w.jobs[w.scanner.job].lifecycle, w.jobs[w.scanner.job].attempt));
  }

  lemma StepLater(w: World, step: Step)
    requires IdentityInv(w) && Next(w, step).Some?
    ensures Later(w, Next(w, step).value)
  {
    match step
    case StartLifecycle => StartLater(w);
    case Overload => DropLater(w, true);
    case ScannerShutdown => DropLater(w, false);
    case Receive(j, reply) => ReceiveLater(w, j, reply);
    case FailAttempt(j) => OperateLater(w, OpAbort(Initialize, w.jobs[j].attempt));
    case Close(j) => OperateLater(w, OpAbort(w.jobs[j].lifecycle, w.jobs[j].attempt));
    case _ =>
      if ScannerStep(step) {
        ScannerLater(w, step);
      } else {
        WorkerLater(w, step);
      }
  }

  /** Over any run the phase only moves forward, failure is final, and an identity once
      negotiated or configured stays the same. */
  lemma {:induction false} RunForward(w: World, steps: seq<Step>)
    requires Inv(w)
    ensures Later(w, Run(w, steps))
    ensures Rank(w.session.phase) <= Rank(Run(w, steps).session.phase)
    ensures w.session.phase == Failed ==> Run(w, steps).session.phase == Failed
    decreases |steps|
  {
    if steps != [] && Next(w, steps[0]).Some? {
      var v := Next(w, steps[0]).value;
      RunInv(w, steps[..1]);
      RunCons(w, steps, 0);
      StepLater(w, steps[0]);
      RunForward(v, steps[1..]);
      MovesTransitive(w.session, v.session, Run(v, steps[1..]).session);
    }
  }

  /** The session was initialized at some moment of the run. */
  ghost predicate WasInitialized(w: World, steps: seq<Step>) {
    exists k :: 0 <= k <= |steps| && Run(w, steps[..k]).session.phase == Initialized
  }

  lemma {:induction false} EverInitializedIsHistory(w: World, steps: seq<Step>)
    requires Inv(w) && (w.everInitialized ==> w.session.phase == Initialized)
    requires Run(w, steps).everInitialized
    ensures WasInitialized(w, steps)
    decreases |steps|
  {
    if w.everInitialized {
      assert Run(w, steps[..0]) == w;
    } else if steps != [] && Next(w, steps[0]).Some? {
      var v := Next(w, steps[0]).value;
      RunInv(w, [steps[0]]);
      RunCons(w, steps, 0);
      assert steps[..1] == [steps[0]];
      EverInitializedStep(w, steps[0]);
      EverInitializedIsHistory(v, steps[1..]);
      var k :| 0 <= k <= |steps| - 1 && Run(v, steps[1..][..k]).session.phase == Initialized;
      RunCons(w, steps, k);
    }
  }

  lemma RunCons(w: World, steps: seq<Step>, k: nat)
    requires k < |steps| && Next(w, steps[0]).Some?
    ensures Run(w, steps[..k + 1]) == Run(Next(w, steps[0]).value, steps[1..][..k])
  {
    assert steps[..k + 1][1..] == steps[1..][..k];
  }

  lemma EverInitializedStep(w: World, step: Step)
    requires Next(w, step).Some? && !w.everInitialized
    ensures Next(w, step).value.everInitialized ==> Next(w, step).value.session.phase == Initialized
  {
  }

  /** An ordinary request is sent only with the one identity of the bridge, and only after
      the session was initialized. */
  lemma RequestsAfterInitialization(configuredId: string, steps: seq<Step>)
    ensures var w := Run(Begin(configuredId), steps);
            && (forall k :: 0 <= k < |w.sent| && w.sent[k].lifecycle == Ordinary ==>
                  && w.negotiated == Some((w.sent[k].id, w.sent[k].version))
                  && w.sent[k].id != ""
                  && (configuredId != "" ==> w.sent[k].id == configuredId && w.sent[k].version == DEFAULT_VERSION))
            && ((exists k :: 0 <= k < |w.sent| && w.sent[k].lifecycle == Ordinary)
                  ==> WasInitialized(Begin(configuredId), steps))
  {
    var w0 := Begin(configuredId);
    var w := Run(w0, steps);
    StartInv(configuredId);
    RunInv(w0, steps);
    RunForward(w0, steps);
    if k :| 0 <= k < |w.sent| && w.sent[k].lifecycle == Ordinary {
      assert GoodIdentity(w, w.sent[k].lifecycle, w.sent[k].id, w.sent[k].version);
      EverInitializedIsHistory(w0, steps);
    }
  }

  /** The session identifier is present exactly while the session is waiting or initialized. */
  lemma IdentifierPresence(configuredId: string, steps: seq<Step>)
    ensures var s := Run(Begin(configuredId), steps).session;
            s.id != "" <==> s.phase in {WaitingInitialized, Initialized}
  {
    StartInv(configuredId);
    RunInv(Begin(configuredId), steps);
  }

  predicate SameOpenId(a: Job, b: Job) {
    a.stage != Gone && b.stage != Gone && a.message.key.Some? && a.message.key == b.message.key
  }

  /** Two unfinished jobs never share an id, and every response line belongs to a job of its own. */
  lemma OneJobOneLine(configuredId: string, steps: seq<Step>)
    ensures var w := Run(Begin(configuredId), steps);
            && (forall i, j :: i in w.jobs && j in w.jobs && SameOpenId(w.jobs[i], w.jobs[j]) ==> i == j)
            && (forall i, k :: 0 <= i < k < |w.lines| ==> w.lines[i] != w.lines[k])
  {
    StartInv(configuredId);
    RunInv(Begin(configuredId), steps);
  }

  /** No wake-up is lost: a job still parked on the current channel faces a session that has
      nothing to offer it yet, and any other parked job can be woken. */
  lemma NoLostWakeup(configuredId: string, steps: seq<Step>, j: nat)
    requires var w := Run(Begin(configuredId), steps);
             j in w.jobs && w.jobs[j].stage.Parked? && !w.fate.Crashed?
    ensures var w := Run(Begin(configuredId), steps);
            if Next(w, Wake(j)).Some? then w.jobs[j].stage.epoch < w.session.epoch
            else w.session.phase in {Initializing, WaitingInitialized}
                 && RequestIdentity(w.session, w.jobs[j].lifecycle, w.jobs[j].attempt) == Wait
  {
    StartInv(configuredId);
    RunInv(Begin(configuredId), steps);
    var w := Run(Begin(configuredId), steps);
    assert GoodJobIdentity(w, w.jobs[j]);
  }
}
