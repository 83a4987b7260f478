/** The stdio bridge as an interleaving of its scanner and workers.  Each step is one
    critical section or one channel operation of cmd/stdio-bridge/bridge.go; whatever
    the outside world decides (replies, timeouts, full queues, shutdown) is an argument
    of the step, so a run is any sequence of steps. */
module BridgeProtocol {
  import opened Basics
  import opened BridgeSession

  datatype Call = CallInitialize | NoteInitialized | Other

  /** A message from standard input: its id in canonical form if it has one. */
  datatype Message = Message(key: Option<string>, call: Call, notification: bool, valid: bool)

  /** Where a job is between newJob and the end of finish. */
  datatype Stage =
    | Held                                  // in the scanner's hands
    | Queued
    | Asking                                // about to look at the session
    | Parked(epoch: nat)                    // waiting for the change channel it captured
    | Ready(id: string, version: string)    // holds an identity, request not sent yet
    | Flying                                // request sent, no reply yet
    | Reporting                             // about to write an error line
    | Writing(failAfter: bool)              // about to write the reply
    | FailingAttempt                        // about to fail the attempt after a remote error
    | Closing                               // the deferred part of execute
    | Finishing
    | Gone

  datatype Job = Job(message: Message, lifecycle: Lifecycle, attempt: Option<nat>, lifecycleComplete: bool,
                     stage: Stage)

  datatype Request = Request(job: nat, lifecycle: Lifecycle, id: string, version: string)

  /** What the scanner is doing with the job it just created. */
  datatype Scanner =
    | Idle
    | Holding(job: nat, cancelling: bool)                       // newJob is done
    | Dispatching(job: nat, cancelling: bool)                   // the session was consulted
    | Releasing(job: nat, answer: bool, answerAfter: bool, stop: bool)   // on the way to finish
    | Answering(job: nat)                                       // finished, error line still to write
    | Forwarding(message: Message)                              // a cancellation is marked, newJob to come
    | HoldingEmpty                                              // newJob refused it: an empty job in hand
    | Stopped

  /** Poisoned: an empty job is queued.  Crashed: the process has ended with a panic. */
  datatype Fate = Sound | Poisoned | Crashed

  /** The shared state.  `lines` and `sent` log what was written and sent, `negotiated` and
      `everInitialized` remember the identity once it existed and whether the session was ever initialized. */
  datatype World = World(
    session: Session, jobs: map<nat, Job>, nextJob: nat, inflight: map<string, nat>, forwarded: set<nat>,
    scanner: Scanner, lines: seq<nat>, sent: seq<Request>,
    negotiated: Option<(string, string)>, everInitialized: bool, fate: Fate)

  function Begin(configuredId: string): World {
    World(Start(configuredId), map[], 0, map[], {}, Idle, [], [],
          if configuredId == "" then None else Some((configuredId, DEFAULT_VERSION)), configuredId != "", Sound)
  }

  datatype Reply =
    | Lost(shutdown: bool)                               // transport error, or the bridge is going down
    | BadReply                                           // wrong status, oversized or unreadable body
    | Accepted                                           // 202 or 204
    | Body(remoteError: bool, valid: bool, id: string, version: string)

  datatype Step =
    | Read(message: Message)
    | ReadCancellation(message: Message, target: Option<string>)
    | Forward
    | EnqueueEmpty
    | DropEmpty
    | TakeEmpty
    | StartLifecycle
    | Enqueue
    | Overload
    | ScannerShutdown
    | ScannerAnswer
    | ScannerFinish
    | StopScanning
    | Take(job: nat)
    | Ask(job: nat)
    | Wake(job: nat)
    | Timeout(job: nat)
    | Send(job: nat, prepared: bool)
    | Receive(job: nat, reply: Reply)
    | Write(job: nat)
    | FailAttempt(job: nat)
    | Close(job: nat)
    | Finish(job: nat)

  function SetJob(w: World, j: nat, job: Job): World {
    w.(jobs := w.jobs[j := job])
  }

  function AtStage(w: World, j: nat, stage: Stage): World
    requires j in w.jobs
  {
    SetJob(w, j, w.jobs[j].(stage := stage))
  }

  /** newJob: refuses an id that is in flight, otherwise registers it. */
  function NewJob(w: World, message: Message): Option<World> {
    if message.key.Some? && message.key.value in w.inflight then None
    else
      var w1 := w.(nextJob := w.nextJob + 1,
                   inflight := if message.key.Some? then w.inflight[message.key.value := w.nextJob] else w.inflight);
      Some(SetJob(w1, w.nextJob, Job(message, Ordinary, None, true, Held)))
  }

  /** finish: forgets the id, but only if it still belongs to this job. */
  function Forget(w: World, j: nat): map<string, nat>
    requires j in w.jobs
  {
    var key := w.jobs[j].message.key;
    if key.Some? && key.value in w.inflight && w.inflight[key.value] == j then w.inflight - {key.value} else w.inflight
  }

  function Finished(w: World, j: nat): World
    requires j in w.jobs
  {
    AtStage(w, j, Gone).(inflight := Forget(w, j))
  }

  /** An error line; a notification only leaves a log entry. */
  function Report(w: World, j: nat): World
    requires j in w.jobs
  {
    if w.jobs[j].message.notification then w else w.(lines := w.lines + [j])
  }

  /** A session operation together with the history it makes. */
  function Operate(w: World, op: Operation): World {
    var s := Perform(w.session, op);
    w.(session := s,
       negotiated := if op.OpCompleteInitialization? && s != w.session then Some((op.id, op.version)) else w.negotiated,
       everInitialized := w.everInitialized || s.phase == Initialized)
  }

  /** The scanner reads an ordinary message. */
  function DoRead(w: World, message: Message): Option<World> {
    if w.scanner != Idle then None
    else
      match NewJob(w, message)
      case None => Some(w)          // answered with a duplicate-id error that belongs to no job
      case Some(w1) => Some(w1.(scanner := Holding(w.nextJob, false)))
  }

  /** The scanner reads a cancellation and marks the job it names, each job once. */
  function DoReadCancellation(w: World, message: Message, target: Option<string>): Option<World> {
    if w.scanner != Idle then None
    else if target.None? || target.value !in w.inflight || w.inflight[target.value] in w.forwarded then Some(w)
    else Some(w.(forwarded := w.forwarded + {w.inflight[target.value]}, scanner := Forwarding(message)))
  }

  /** The marked cancellation gets a job of its own.  The duplicate verdict of newJob is ignored, and
      then the job is empty: it has no context and no cancel function. */
  function DoForward(w: World): Option<World> {
    if !w.scanner.Forwarding? then None
    else
      match NewJob(w, w.scanner.message)
      case None => Some(w.(scanner := HoldingEmpty))
      case Some(v) => Some(v.(scanner := Dispatching(w.nextJob, true)))
  }

  /** The empty job is queued; a full queue or a shutdown has the scanner finish it, which panics. */
  function DoEmpty(w: World, queued: bool): Option<World> {
    if w.scanner != HoldingEmpty then None
    else if queued then Some(w.(scanner := Idle, fate := Poisoned))
    else Some(w.(fate := Crashed))
  }

  /** beginInitialization or beginInitialized for the job just created. */
  function DoStartLifecycle(w: World): Option<World> {
    if !w.scanner.Holding? || w.scanner.job !in w.jobs then None
    else
      var j := w.scanner.job;
      var job := w.jobs[j];
      match job.message.call
      case Other => Some(w.(scanner := Dispatching(j, false)))
      case CallInitialize =>
        var valid := job.message.key.Some? && job.message.valid;
        var begun := BeginInitialization(w.session, valid).1;
        StartOrRelease(Operate(w, OpBeginInitialization(valid)), j, Initialize, begun, true)
      case NoteInitialized =>
        var begun := BeginInitialized(w.session, job.message.notification).1;
        StartOrRelease(Operate(w, OpBeginInitialized(job.message.notification)), j, InitializedNotice, begun, false)
  }

  /** A refused lifecycle message is finished first and answered, if at all, afterwards. */
  function StartOrRelease(w: World, j: nat, lifecycle: Lifecycle, begun: Begun, answerAfter: bool): Option<World>
    requires j in w.jobs
  {
    if begun.Refused? then Some(w.(scanner := Releasing(j, false, answerAfter, false)))
    else Some(SetJob(w, j, w.jobs[j].(lifecycle := lifecycle, attempt := begun.attempt, lifecycleComplete := false))
              .(scanner := Dispatching(j, false)))
  }

  function DoEnqueue(w: World): Option<World> {
    if !w.scanner.Dispatching? || w.scanner.job !in w.jobs then None
    else Some(AtStage(w, w.scanner.job, Queued).(scanner := Idle))
  }

  /** A full queue or a shutdown: the attempt is given up and the job goes to finish.  An
      initialized notice waits for its queue instead of being rejected. */
  function DoDrop(w: World, overload: bool): Option<World> {
    if !w.scanner.Dispatching? || w.scanner.job !in w.jobs then None
    else
      var j := w.scanner.job;
      var job := w.jobs[j];
      if overload && job.lifecycle == InitializedNotice then None
      else
        var answer := overload && !w.scanner.cancelling && job.message.key.Some?;
        Some(Operate(w, OpAbort(job.lifecycle, job.attempt)).(scanner := Releasing(j, answer, false, !overload)))
  }

  function DoScannerAnswer(w: World): Option<World> {
    match w.scanner
    case Releasing(j, true, after, stop) =>
      Some(w.(lines := w.lines + [j], scanner := Releasing(j, false, after, stop)))
    case Answering(j) => Some(w.(lines := w.lines + [j], scanner := Idle))
    case _ => None
  }

  function DoScannerFinish(w: World): Option<World> {
    match w.scanner
    case Releasing(j, false, after, stop) =>
      if j !in w.jobs then None
      else Some(Finished(w, j).(scanner := if after then Answering(j) else if stop then Stopped else Idle))
    case _ => None
  }

  function DoAsk(w: World, j: nat): World
    requires j in w.jobs
  {
    match RequestIdentity(w.session, w.jobs[j].lifecycle, w.jobs[j].attempt)
    case Proceed(id, version) => AtStage(w, j, Ready(id, version))
    case Wait => AtStage(w, j, Parked(w.session.epoch))
    case Reject => AtStage(w, j, Reporting)
  }

  function DoSend(w: World, j: nat, prepared: bool): World
    requires j in w.jobs && w.jobs[j].stage.Ready?
  {
    if !prepared then AtStage(w, j, Reporting)
    else
      var stage := w.jobs[j].stage;
      AtStage(w, j, Flying).(sent := w.sent + [Request(j, w.jobs[j].lifecycle, stage.id, stage.version)])
  }

  function DoReceive(w: World, j: nat, reply: Reply): World
    requires j in w.jobs
  {
    var job := w.jobs[j];
    match reply
    case Lost(shutdown) => AtStage(w, j, if shutdown then Closing else Reporting)
    case BadReply => AtStage(w, j, Reporting)
    case Accepted =>
      if job.lifecycle == InitializedNotice then
        SetJob(Operate(w, OpCompleteInitialized(job.attempt)), j, job.(lifecycleComplete := true, stage := Closing))
      else AtStage(w, j, if job.message.notification then Closing else Reporting)
    case Body(remoteError, valid, id, version) =>
      if job.lifecycle == InitializedNotice then AtStage(w, j, Reporting)
      else if job.message.notification then AtStage(w, j, Closing)
      else if job.lifecycle == Ordinary then AtStage(w, j, Writing(false))
      else if !valid then AtStage(w, j, Reporting)
      else if remoteError then AtStage(w, j, Writing(true))
      else if !SafeSessionId(id) then AtStage(w, j, Reporting)
      else SetJob(Operate(w, OpCompleteInitialization(job.attempt, id, version)), j,
                  job.(lifecycleComplete := true, stage := Writing(false)))
  }

  function DoWrite(w: World, j: nat): Option<World>
    requires j in w.jobs
  {
    match w.jobs[j].stage
    case Reporting => Some(AtStage(Report(w, j), j, Closing))
    case Writing(failAfter) =>
      Some(AtStage(w.(lines := w.lines + [j]), j, if failAfter then FailingAttempt else Closing))
    case _ => None
  }

  function DoFailAttempt(w: World, j: nat): World
    requires j in w.jobs
  {
    SetJob(Operate(w, OpAbort(Initialize, w.jobs[j].attempt)), j,
           w.jobs[j].(lifecycleComplete := true, stage := Closing))
  }

  function DoClose(w: World, j: nat): World
    requires j in w.jobs
  {
    var job := w.jobs[j];
    AtStage(if job.lifecycleComplete then w else Operate(w, OpAbort(job.lifecycle, job.attempt)), j, Finishing)
  }

  /** The steps of the scanner, and the panic of the worker that takes an empty job. */
  predicate ScannerStep(step: Step) {
    || step.Read? || step.ReadCancellation? || step.Forward? || step.EnqueueEmpty? || step.DropEmpty? || step.TakeEmpty?
    || step.StartLifecycle? || step.Enqueue? || step.Overload? || step.ScannerShutdown? || step.ScannerAnswer?
    || step.ScannerFinish? || step.StopScanning?
  }

  function ScannerNext(w: World, step: Step): Option<World>
    requires ScannerStep(step)
  {
    match step
    case Read(message) => DoRead(w, message)
    case ReadCancellation(message, target) => DoReadCancellation(w, message, target)
    case Forward => DoForward(w)
    case EnqueueEmpty => DoEmpty(w, true)
    case DropEmpty => DoEmpty(w, false)
    case TakeEmpty => if w.fate.Poisoned? then Some(w.(fate := Crashed)) else None
    case StartLifecycle => DoStartLifecycle(w)
    case Enqueue => DoEnqueue(w)
    case Overload => DoDrop(w, true)
    case ScannerShutdown => DoDrop(w, false)
    case ScannerAnswer => DoScannerAnswer(w)
    case ScannerFinish => DoScannerFinish(w)
    case StopScanning => if w.scanner == Idle then Some(w.(scanner := Stopped)) else None
  }

  function WorkerNext(w: World, step: Step): Option<World>
    requires !ScannerStep(step) && step.job in w.jobs
  {
    var j, stage := step.job, w.jobs[step.job].stage;
    match step
    case Take(_) => if stage == Queued then Some(AtStage(w, j, Asking)) else None
    case Ask(_) => if stage == Asking then Some(DoAsk(w, j)) else None
    case Wake(_) => if stage.Parked? && stage.epoch < w.session.epoch then Some(AtStage(w, j, Asking)) else None
    case Timeout(_) => if stage.Parked? then Some(AtStage(w, j, Reporting)) else None
    case Send(_, prepared) => if stage.Ready? then Some(DoSend(w, j, prepared)) else None
    case Receive(_, reply) => if stage == Flying then Some(DoReceive(w, j, reply)) else None
    case Write(_) => DoWrite(w, j)
    case FailAttempt(_) => if stage == FailingAttempt then Some(DoFailAttempt(w, j)) else None
    case Close(_) => if stage == Closing then Some(DoClose(w, j)) else None
    case Finish(_) => if stage == Finishing then Some(Finished(w, j)) else None
  }

  /** One step; None when it is not enabled. */
  function Next(w: World, step: Step): Option<World> {
    if w.fate.Crashed? then None
    else if ScannerStep(step) then ScannerNext(w, step)
    else if step.job in w.jobs then WorkerNext(w, step)
    else None
  }
}
