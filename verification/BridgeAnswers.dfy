/** Every request read by the bridge is answered with one line, and a handshake can complete
    (cmd/stdio-bridge/bridge.go). */
module BridgeAnswers {
  import opened Basics
  import BridgeSession
  import opened BridgeProtocol
  import opened BridgeSafety
  import opened BridgeCancellation

  // ----- the steps that take a job without a line --------------------------------------------

  /** The step ends the job without a line: the bridge goes down, a forwarded cancellation or a message
      without an id meets a full queue, or an initialized notice that is no notification is refused. */
  predicate Silences(w: World, step: Step, j: nat) {
    || (step.Receive? && step.job == j && step.reply == Lost(true))
    || (w.scanner.Dispatching? && w.scanner.job == j && j in w.jobs
        && (step.ScannerShutdown?
            || (step.Overload? && (w.scanner.cancelling || w.jobs[j].message.key.None?))))
    || (w.scanner.Holding? && w.scanner.job == j && j in w.jobs
        && step.StartLifecycle? && w.jobs[j].message.call == NoteInitialized)
  }

  /** The job's line is written, or still to be written. */
  predicate LineDue(w: World, j: nat) {
    || j in w.lines
    || w.scanner == Answering(j)
    || (j in w.jobs && !PastLine(w.jobs[j].stage)
        && (w.scanner.Releasing? && w.scanner.job == j ==> w.scanner.answer || w.scanner.answerAfter))
  }

  /** Only notifications are forwarded as initialized notices. */
  ghost predicate NoticesOnly(w: World) {
    && (forall j :: j in w.jobs && w.jobs[j].lifecycle == BridgeSession.InitializedNotice ==>
          w.jobs[j].message.notification)
    && (forall j :: j in w.jobs && w.jobs[j].stage.Writing? ==> !w.jobs[j].message.notification)
  }

  // ----- one step -----------------------------------------------------------------------------

  lemma WaitingDue(w: World, step: Step, j: nat)
    requires !ScannerStep(step) && step.job in w.jobs && WorkerNext(w, step).Some?
    requires step.Take? || step.Ask? || step.Wake? || step.Timeout? || step.Send?
    requires LineDue(w, j)
    ensures LineDue(WorkerNext(w, step).value, j)
  {
  }

  lemma ReceiveDue(w: World, step: Step, j: nat)
    requires step.Receive? && step.job in w.jobs && WorkerNext(w, step).Some?
    requires NoticesOnly(w) && LineDue(w, j) && !Silences(w, step, j)
    requires j in w.jobs && !w.jobs[j].message.notification
    ensures LineDue(WorkerNext(w, step).value, j)
  {
  }

  lemma ClosingDue(w: World, step: Step, j: nat)
    requires !ScannerStep(step) && step.job in w.jobs && WorkerNext(w, step).Some?
    requires step.Write? || step.FailAttempt? || step.Close? || step.Finish?
    requires HandInv(w) && LineDue(w, j) && j in w.jobs && !w.jobs[j].message.notification
    ensures LineDue(WorkerNext(w, step).value, j)
  {
  }

  lemma WorkerDue(w: World, step: Step, j: nat)
    requires HandInv(w) && NoticesOnly(w) && Next(w, step).Some? && !ScannerStep(step)
    requires LineDue(w, j) && !Silences(w, step, j) && j in w.jobs && !w.jobs[j].message.notification
    ensures LineDue(Next(w, step).value, j)
  {
    if step.Receive? {
      ReceiveDue(w, step, j);
    } else if step.Write? || step.FailAttempt? || step.Close? || step.Finish? {
      ClosingDue(w, step, j);
    } else {
      WaitingDue(w, step, j);
    }
  }

  lemma DropDue(w: World, overload: bool, j: nat)
    requires HandInv(w) && DoDrop(w, overload).Some? && LineDue(w, j) && j in w.jobs
    requires w.scanner.job == j ==> overload && !w.scanner.cancelling && w.jobs[j].message.key.Some?
    ensures LineDue(DoDrop(w, overload).value, j)
  {
  }

  lemma StartDue(w: World, j: nat)
    requires HandInv(w) && LineDue(w, j) && DoStartLifecycle(w).Some? && j in w.jobs
    requires w.scanner.job == j ==> w.jobs[j].message.call != NoteInitialized
    ensures LineDue(DoStartLifecycle(w).value, j)
  {
    StartSteps(w);
  }

  lemma ScannerDue(w: World, step: Step, j: nat)
    requires HandInv(w) && Next(w, step).Some? && ScannerStep(step)
    requires LineDue(w, j) && !Silences(w, step, j) && j in w.jobs && !w.jobs[j].message.notification
    ensures LineDue(Next(w, step).value, j)
  {
    match step
    case StartLifecycle => StartDue(w, j);
    case Overload => DropDue(w, true, j);
    case ScannerShutdown => DropDue(w, false, j);
    case _ => OtherDue(w, step, j);
  }

  lemma OtherDue(w: World, step: Step, j: nat)
    requires HandInv(w) && Next(w, step).Some? && ScannerStep(step) && LineDue(w, j) && j in w.jobs
    requires !step.StartLifecycle? && !step.Overload? && !step.ScannerShutdown?
    ensures LineDue(Next(w, step).value, j)
  {
  }

  lemma ScannerNotices(w: World, step: Step)
    requires HandInv(w) && NoticesOnly(w) && Next(w, step).Some? && ScannerStep(step)
    ensures NoticesOnly(Next(w, step).value)
  {
    if step.StartLifecycle? {
      StartNotices(w);
    } else if JoblessStep(step) {
      JoblessFrame(w, step);
    } else {
      HandedNotices(w, step);
    }
  }

  lemma StartNotices(w: World)
    requires HandInv(w) && NoticesOnly(w) && DoStartLifecycle(w).Some?
    ensures NoticesOnly(DoStartLifecycle(w).value)
  {
    StartSteps(w);
  }

  lemma HandedNotices(w: World, step: Step)
    requires HandInv(w) && NoticesOnly(w) && Next(w, step).Some?
    requires step.Read? || step.Forward? || step.Enqueue? || step.ScannerFinish?
    ensures NoticesOnly(Next(w, step).value)
  {
  }

  lemma WorkerNotices(w: World, step: Step)
    requires HandInv(w) && NoticesOnly(w) && Next(w, step).Some? && !ScannerStep(step)
    ensures NoticesOnly(Next(w, step).value)
  {
    WorkerSteps(w, step);
    OwnNotice(w, step);
  }

  lemma OwnNotice(w: World, step: Step)
    requires NoticesOnly(w) && !ScannerStep(step) && step.job in w.jobs && WorkerNext(w, step).Some?
    ensures OwnKept(w, step)
  {
    if step.Receive? {
      OwnReceived(w, step);
    } else {
      OwnOther(w, step);
    }
  }

  ghost predicate OwnKept(w: World, step: Step)
    requires !ScannerStep(step) && step.job in w.jobs && WorkerNext(w, step).Some?
  {
    var v := WorkerNext(w, step).value;
    && step.job in v.jobs && v.jobs[step.job].lifecycle == w.jobs[step.job].lifecycle
    && (v.jobs[step.job].stage.Writing? ==> !w.jobs[step.job].message.notification)
  }

  lemma OwnReceived(w: World, step: Step)
    requires NoticesOnly(w) && step.Receive? && step.job in w.jobs && WorkerNext(w, step).Some?
    ensures OwnKept(w, step)
  {
  }

  lemma OwnOther(w: World, step: Step)
    requires NoticesOnly(w) && !ScannerStep(step) && !step.Receive?
    requires step.job in w.jobs && WorkerNext(w, step).Some?
    ensures OwnKept(w, step)
  {
  }

  lemma ScannerJobs(w: World, step: Step)
    requires HandInv(w) && Next(w, step).Some? && ScannerStep(step)
    ensures var v := Next(w, step).value;
            && (forall j :: j in w.jobs ==> j in v.jobs && v.jobs[j].message == w.jobs[j].message)
            && (forall j :: j in v.jobs && j !in w.jobs ==> LineDue(v, j))
  {
    if step.StartLifecycle? {
      StartSteps(w);
    } else if JoblessStep(step) {
      JoblessFrame(w, step);
    } else {
      HandedJobs(w, step);
    }
  }

  lemma HandedJobs(w: World, step: Step)
    requires HandInv(w) && Next(w, step).Some?
    requires step.Read? || step.Forward? || step.Enqueue? || step.ScannerFinish?
    ensures var v := Next(w, step).value;
            && (forall j :: j in w.jobs ==> j in v.jobs && v.jobs[j].message == w.jobs[j].message)
            && (forall j :: j in v.jobs && j !in w.jobs ==> LineDue(v, j))
  {
  }

  /** A job's message stays, and a new job's line is due. */
  lemma StepJobs(w: World, step: Step)
    requires HandInv(w) && Next(w, step).Some?
    ensures var v := Next(w, step).value;
            && (forall j :: j in w.jobs ==> j in v.jobs && v.jobs[j].message == w.jobs[j].message)
            && (forall j :: j in v.jobs && j !in w.jobs ==> LineDue(v, j))
  {
    if ScannerStep(step) {
      ScannerJobs(w, step);
    } else {
      WorkerSteps(w, step);
    }
  }

  predicate Due(w: World, j: nat) {
    j in w.jobs && !w.jobs[j].message.notification ==> LineDue(w, j)
  }

  lemma StepDue(w: World, step: Step, j: nat)
    requires HandInv(w) && NoticesOnly(w) && Next(w, step).Some? && Due(w, j) && !Silences(w, step, j)
    ensures Due(Next(w, step).value, j) && NoticesOnly(Next(w, step).value)
  {
    StepJobs(w, step);
    if ScannerStep(step) {
      ScannerNotices(w, step);
      if j in w.jobs && !w.jobs[j].message.notification {
        ScannerDue(w, step, j);
      }
    } else {
      WorkerNotices(w, step);
      if j in w.jobs && !w.jobs[j].message.notification {
        WorkerDue(w, step, j);
      }
    }
  }

  // ----- whole runs ---------------------------------------------------------------------------

  /** The run's n-th step ends job j without a line. */
  ghost predicate SilencedAt(w: World, steps: seq<Step>, n: nat, j: nat)
    requires n < |steps|
  {
    Makes(w, steps, n) && Silences(Run(w, steps[..n]), steps[n], j)
  }

  ghost predicate Silenced(w: World, steps: seq<Step>, j: nat) {
    exists n :: 0 <= n < |steps| && SilencedAt(w, steps, n, j)
  }

  lemma SilencedLater(w: World, steps: seq<Step>, j: nat)
    requires steps != [] && Next(w, steps[0]).Some?
    ensures Silences(w, steps[0], j) || Silenced(Next(w, steps[0]).value, steps[1..], j) ==> Silenced(w, steps, j)
  {
    MakesFirst(w, steps);
    if Silences(w, steps[0], j) {
      assert SilencedAt(w, steps, 0, j);
    }
    if n :| 0 <= n < |steps[1..]| && SilencedAt(Next(w, steps[0]).value, steps[1..], n, j) {
      MakesLater(w, steps, n);
      assert SilencedAt(w, steps, n + 1, j);
    }
  }

  lemma {:induction false} RunDue(w: World, steps: seq<Step>, j: nat)
    requires HandInv(w) && NoticesOnly(w) && Due(w, j) && !Silenced(w, steps, j)
    ensures Due(Run(w, steps), j)
    decreases |steps|
  {
    if steps != [] && Next(w, steps[0]).Some? {
      SilencedLater(w, steps, j);
      StepDue(w, steps[0], j);
      StepHand(w, steps[0]);
      RunDue(Next(w, steps[0]).value, steps[1..], j);
    }
  }

  /** In every run each message that is not a notification, once its job is done with, has been answered
      with exactly one line, unless a step of the run ended the job without one. */
  lemma EveryRequestAnswered(configuredId: string, steps: seq<Step>, j: nat)
    requires var w := Run(Begin(configuredId), steps);
             && j in w.jobs && w.jobs[j].stage.Gone? && !w.jobs[j].message.notification && w.scanner != Answering(j)
    requires !Silenced(Begin(configuredId), steps, j)
    ensures var lines := Run(Begin(configuredId), steps).lines;
            exists i :: 0 <= i < |lines| && lines[i] == j && forall k :: 0 <= k < |lines| && lines[k] == j ==> k == i
  {
    var w0 := Begin(configuredId);
    var w := Run(w0, steps);
    StartInv(configuredId);
    RunDue(w0, steps, j);
    OneJobOneLine(configuredId, steps);
    var i :| 0 <= i < |w.lines| && w.lines[i] == j;
  }

  /** No job is stuck: whatever its stage, some step of its worker brings it closer to its end. */
  lemma NoJobStuck(configuredId: string, steps: seq<Step>, j: nat)
    requires var w := Run(Begin(configuredId), steps);
             && j in w.jobs && !w.jobs[j].stage.Held? && !w.jobs[j].stage.Gone? && w.fate != Crashed
    ensures var w := Run(Begin(configuredId), steps);
            exists step :: Next(w, step).Some? && j in Next(w, step).value.jobs
                           && Distance(Next(w, step).value.jobs[j].stage) < Distance(w.jobs[j].stage)
  {
    var w := Run(Begin(configuredId), steps);
    var step := Hurry(w, j);
    assert Next(w, step) == WorkerNext(w, step);
  }

  // ----- notifications ----------------------------------------------------------------------------

  /** A notification other than an initialize request without an id. */
  predicate Note(message: Message) {
    message.notification && message.key.None? && message.call != CallInitialize
  }

  /** No line of a notification is written or to be written. */
  predicate Quiet(w: World, j: nat) {
    j in w.jobs && Note(w.jobs[j].message) ==>
      && j !in w.lines && !w.jobs[j].stage.Writing? && w.scanner != Answering(j)
      && (w.scanner.Releasing? && w.scanner.job == j ==> !w.scanner.answer && !w.scanner.answerAfter)
  }

  lemma WorkerQuiet(w: World, step: Step, j: nat)
    requires HandInv(w) && NoticesOnly(w) && Next(w, step).Some? && !ScannerStep(step) && Quiet(w, j)
    ensures Quiet(Next(w, step).value, j)
  {
    WorkerSteps(w, step);
    WorkerNotices(w, step);
    if step.Write? {
      WriteQuiet(w, step.job);
    } else {
      OnlyWritesWrite(w, step);
    }
  }

  lemma OnlyWritesWrite(w: World, step: Step)
    requires !ScannerStep(step) && !step.Write? && step.job in w.jobs && WorkerNext(w, step).Some?
    ensures WorkerNext(w, step).value.lines == w.lines
  {
  }

  lemma WriteQuiet(w: World, j: nat)
    requires j in w.jobs && DoWrite(w, j).Some? && NoticesOnly(w)
    ensures j in DoWrite(w, j).value.jobs && (Note(w.jobs[j].message) ==> DoWrite(w, j).value.lines == w.lines)
  {
  }

  lemma StartQuiet(w: World, j: nat)
    requires HandInv(w) && DoStartLifecycle(w).Some? && Quiet(w, j)
    ensures Quiet(DoStartLifecycle(w).value, j)
  {
    StartSteps(w);
  }

  lemma DropQuiet(w: World, overload: bool, j: nat)
    requires HandInv(w) && DoDrop(w, overload).Some? && Quiet(w, j)
    ensures Quiet(DoDrop(w, overload).value, j)
  {
  }

  lemma OtherQuiet(w: World, step: Step, j: nat)
    requires HandInv(w) && LinesInv(w) && Next(w, step).Some? && ScannerStep(step) && Quiet(w, j)
    requires !step.StartLifecycle? && !step.Overload? && !step.ScannerShutdown?
    ensures Quiet(Next(w, step).value, j)
  {
  }

  lemma StepQuiet(w: World, step: Step, j: nat)
    requires HandInv(w) && LinesInv(w) && NoticesOnly(w) && Next(w, step).Some? && Quiet(w, j)
    ensures Quiet(Next(w, step).value, j)
  {
    match step
    case StartLifecycle => StartQuiet(w, j);
    case Overload => DropQuiet(w, true, j);
    case ScannerShutdown => DropQuiet(w, false, j);
    case _ =>
      if ScannerStep(step) {
        OtherQuiet(w, step, j);
      } else {
        WorkerQuiet(w, step, j);
      }
  }

  lemma {:induction false} RunQuiet(w: World, steps: seq<Step>, j: nat)
    requires HandInv(w) && LinesInv(w) && NoticesOnly(w) && Quiet(w, j)
    ensures Quiet(Run(w, steps), j)
    decreases |steps|
  {
    if steps != [] && Next(w, steps[0]).Some? {
      StepQuiet(w, steps[0], j);
      StepHand(w, steps[0]);
      StepLines(w, steps[0]);
      if ScannerStep(steps[0]) {
        ScannerNotices(w, steps[0]);
      } else {
        WorkerNotices(w, steps[0]);
      }
      RunQuiet(Next(w, steps[0]).value, steps[1..], j);
    }
  }

  /** In every run a notification is never answered. */
  lemma NotificationsUnanswered(configuredId: string, steps: seq<Step>, j: nat)
    requires j in Run(Begin(configuredId), steps).jobs && Note(Run(Begin(configuredId), steps).jobs[j].message)
    ensures j !in Run(Begin(configuredId), steps).lines
  {
    StartInv(configuredId);
    RunQuiet(Begin(configuredId), steps, j);
  }

  // ----- the handshake --------------------------------------------------------------------------

  /** An accepted notice of the open attempt makes the session initialized, with the negotiated identity. */
  lemma NoticeCompletes(configuredId: string, steps: seq<Step>, j: nat)
    requires var w := Run(Begin(configuredId), steps);
             && w.fate != Crashed && j in w.jobs && w.jobs[j].stage.Flying?
             && w.jobs[j].lifecycle == BridgeSession.InitializedNotice
             && w.session.phase == BridgeSession.WaitingInitialized && w.jobs[j].attempt == w.session.attempt
    ensures var w := Run(Begin(configuredId), steps);
            var v := Next(w, Receive(j, Accepted)).value.session;
            v.phase == BridgeSession.Initialized && w.negotiated == Some((v.id, v.version)) && v.id != ""
  {
    StartInv(configuredId);
    RunInv(Begin(configuredId), steps);
  }

  /** Once the session is initialized, an ordinary job that looks at it gets the negotiated identity. */
  lemma InitializedServes(configuredId: string, steps: seq<Step>, j: nat)
    requires var w := Run(Begin(configuredId), steps);
             && w.fate != Crashed && j in w.jobs && w.jobs[j].stage.Asking?
             && w.session.phase == BridgeSession.Initialized && w.jobs[j].lifecycle != BridgeSession.Initialize
    ensures var w := Run(Begin(configuredId), steps);
            && w.negotiated.Some?
            && Next(w, Ask(j)).value.jobs[j].stage == Ready(w.negotiated.value.0, w.negotiated.value.1)
  {
    StartInv(configuredId);
    RunInv(Begin(configuredId), steps);
  }

  const CALL := Message(Some("1"), CallInitialize, false, true)
  const NOTICE := Message(None, NoteInitialized, true, true)

  /** The initialize request up to its answer. */
  function Opening(id: string, version: string): seq<Step> {
    [Read(CALL), StartLifecycle, Enqueue, Take(0), Ask(0), Send(0, true), Receive(0, Body(false, true, id, version)),
     Write(0)]
  }

  /** The notice up to its acceptance. */
  function Closing(): seq<Step> {
    [Read(NOTICE), StartLifecycle, Enqueue, Take(1), Ask(1), Send(1, true), Receive(1, Accepted)]
  }

  /** A run is the chain of its worlds. */
  lemma {:induction false} RunChain(worlds: seq<World>, steps: seq<Step>)
    requires |worlds| == |steps| + 1
    requires forall k :: 0 <= k < |steps| ==> Next(worlds[k], steps[k]) == Some(worlds[k + 1])
    ensures Run(worlds[0], steps) == worlds[|steps|]
    decreases |steps|
  {
    if steps != [] {
      RunChain(worlds[1..], steps[1..]);
    }
  }

  lemma {:induction false} RunBoth(w: World, a: seq<Step>, b: seq<Step>, worlds: seq<World>)
    requires |worlds| == |a| + 1 && worlds[0] == w
    requires forall k :: 0 <= k < |a| ==> Next(worlds[k], a[k]) == Some(worlds[k + 1])
    ensures Run(w, a + b) == Run(worlds[|a|], b)
    decreases |a|
  {
    if a == [] {
      assert a + b == b;
    } else {
      assert (a + b)[1..] == a[1..] + b;
      RunBoth(worlds[1], a[1..], b, worlds[1..]);
    }
  }

  /** The world while job 0 of the handshake is at a stage. */
  function Opened(scanner: Scanner, stage: Stage, sent: seq<Request>): World {
    World(BridgeSession.Session(BridgeSession.Initializing, "", "", Some(0), {}, 1, 1),
          map[0 := Job(CALL, BridgeSession.Initialize, Some(0), false, stage)], 1, map["1" := 0], {}, scanner, [], sent,
          None, false, Sound)
  }

  const FIRST := Request(0, BridgeSession.Initialize, "", "")

  /** The world once the initialize request is answered. */
  function Negotiated(id: string, version: string, stage: Stage, lines: seq<nat>): World {
    World(BridgeSession.Session(BridgeSession.WaitingInitialized, id, version, Some(0), {}, 1, 2),
          map[0 := Job(CALL, BridgeSession.Initialize, Some(0), true, stage)], 1, map["1" := 0], {}, Idle, lines,
          [FIRST], Some((id, version)), false, Sound)
  }

  function OpeningWorlds(id: string, version: string): seq<World> {
    [Begin(""),
     Begin("").(jobs := map[0 := Job(CALL, BridgeSession.Ordinary, None, true, Held)], nextJob := 1,
                inflight := map["1" := 0], scanner := Holding(0, false)),
     Opened(Dispatching(0, false), Held, []), Opened(Idle, Queued, []), Opened(Idle, Asking, []),
     Opened(Idle, Ready("", ""), []), Opened(Idle, Flying, [FIRST]),
     Negotiated(id, version, Writing(false), []), Negotiated(id, version, Stage.Closing, [0])]
  }

  lemma Overwritten(a: Job, b: Job)
    ensures map[0 := a][0 := b] == map[0 := b]
  {
  }

  lemma OpenedStage(scanner: Scanner, a: Stage, b: Stage, sent: seq<Request>)
    ensures AtStage(Opened(scanner, a, sent), 0, b) == Opened(scanner, b, sent)
  {
    Overwritten(Opened(scanner, a, sent).jobs[0], Opened(scanner, b, sent).jobs[0]);
  }

  lemma OpeningReads()
    ensures var w, s := OpeningWorlds("", ""), Opening("", "");
            Next(w[0], s[0]) == Some(w[1]) && Next(w[1], s[1]) == Some(w[2])
  {
    var w := OpeningWorlds("", "");
    Overwritten(w[1].jobs[0], w[2].jobs[0]);
    assert Next(w[1], StartLifecycle).value.session == w[2].session;
  }

  lemma OpeningWaits()
    ensures var w, s := OpeningWorlds("", ""), Opening("", "");
            && Next(w[2], s[2]) == Some(w[3]) && Next(w[3], s[3]) == Some(w[4])
            && Next(w[4], s[4]) == Some(w[5]) && Next(w[5], s[5]) == Some(w[6])
  {
    OpenedStage(Dispatching(0, false), Held, Queued, []);
    OpenedStage(Idle, Queued, Asking, []);
    OpenedStage(Idle, Asking, Ready("", ""), []);
    OpenedStage(Idle, Ready("", ""), Flying, []);
    assert [] + [FIRST] == [FIRST];
  }

  lemma OpeningAnswers(id: string, version: string)
    requires BridgeSession.SafeSessionId(id)
    ensures var w, s := OpeningWorlds(id, version), Opening(id, version);
            Next(w[6], s[6]) == Some(w[7]) && Next(w[7], s[7]) == Some(w[8])
  {
    var w := OpeningWorlds(id, version);
    Overwritten(w[6].jobs[0], w[7].jobs[0]);
    Overwritten(w[7].jobs[0], w[8].jobs[0]);
    assert [] + [0] == [0];
  }

  lemma OpeningRuns(id: string, version: string)
    requires BridgeSession.SafeSessionId(id)
    ensures var w, s := OpeningWorlds(id, version), Opening(id, version);
            |w| == |s| + 1 && forall k :: 0 <= k < |s| ==> Next(w[k], s[k]) == Some(w[k + 1])
  {
    OpeningReads();
    OpeningWaits();
    OpeningAnswers(id, version);
    var a, b := OpeningWorlds("", ""), OpeningWorlds(id, version);
    assert forall k :: 0 <= k <= 6 ==> a[k] == b[k];
  }

  /** The world while job 1, the notice, is at a stage. */
  function Notified(id: string, version: string, scanner: Scanner, stage: Stage, sent: seq<Request>): World {
    var w := Negotiated(id, version, Stage.Closing, [0]);
    w.(session := w.session.(seen := {0}),
       jobs := w.jobs[1 := Job(NOTICE, BridgeSession.InitializedNotice, Some(0), false, stage)],
       nextJob := 2, scanner := scanner, sent := sent)
  }

  /** The world once the notice is accepted. */
  function Ended(id: string, version: string): World {
    var w := Notified(id, version, Idle, Flying, [FIRST, SecondOf(id, version)]);
    w.(session := BridgeSession.Session(BridgeSession.Initialized, id, version, None, {0}, 1, 3),
       jobs := w.jobs[1 := Job(NOTICE, BridgeSession.InitializedNotice, Some(0), true, Stage.Closing)],
       everInitialized := true)
  }

  function SecondOf(id: string, version: string): Request {
    Request(1, BridgeSession.InitializedNotice, id, version)
  }

  function ClosingWorlds(id: string, version: string): seq<World> {
    var w := Negotiated(id, version, Stage.Closing, [0]);
    [w,
     w.(jobs := w.jobs[1 := Job(NOTICE, BridgeSession.Ordinary, None, true, Held)], nextJob := 2,
        scanner := Holding(1, false)),
     Notified(id, version, Dispatching(1, false), Held, [FIRST]), Notified(id, version, Idle, Queued, [FIRST]),
     Notified(id, version, Idle, Asking, [FIRST]), Notified(id, version, Idle, Ready(id, version), [FIRST]),
     Notified(id, version, Idle, Flying, [FIRST, SecondOf(id, version)]), Ended(id, version)]
  }

  lemma Overwritten1(jobs: map<nat, Job>, a: Job, b: Job)
    ensures jobs[1 := a][1 := b] == jobs[1 := b]
  {
  }

  lemma NotifiedStage(id: string, version: string, scanner: Scanner, a: Stage, b: Stage, sent: seq<Request>)
    ensures AtStage(Notified(id, version, scanner, a, sent), 1, b) == Notified(id, version, scanner, b, sent)
  {
    var w := Negotiated(id, version, Stage.Closing, [0]);
    Overwritten1(w.jobs, Notified(id, version, scanner, a, sent).jobs[1],
                 Notified(id, version, scanner, b, sent).jobs[1]);
  }

  lemma ClosingReads(id: string, version: string)
    ensures var w, s := ClosingWorlds(id, version), Closing();
            Next(w[0], s[0]) == Some(w[1]) && Next(w[1], s[1]) == Some(w[2])
  {
    var w := ClosingWorlds(id, version);
    Overwritten1(w[0].jobs, w[1].jobs[1], w[2].jobs[1]);
    assert {} + {0} == {0};
    assert Next(w[1], StartLifecycle).value.session == w[2].session;
  }

  lemma ClosingWaits(id: string, version: string)
    ensures var w, s := ClosingWorlds(id, version), Closing();
            && Next(w[2], s[2]) == Some(w[3]) && Next(w[3], s[3]) == Some(w[4])
            && Next(w[4], s[4]) == Some(w[5]) && Next(w[5], s[5]) == Some(w[6])
  {
    NotifiedStage(id, version, Dispatching(1, false), Held, Queued, [FIRST]);
    NotifiedStage(id, version, Idle, Queued, Asking, [FIRST]);
    NotifiedStage(id, version, Idle, Asking, Ready(id, version), [FIRST]);
    NotifiedStage(id, version, Idle, Ready(id, version), Flying, [FIRST]);
    assert [FIRST] + [SecondOf(id, version)] == [FIRST, SecondOf(id, version)];
  }

  lemma ClosingEnds(id: string, version: string)
    ensures var w, s := ClosingWorlds(id, version), Closing();
            Next(w[6], s[6]) == Some(w[7])
  {
    var w := ClosingWorlds(id, version);
    Overwritten1(w[0].jobs, w[6].jobs[1], w[7].jobs[1]);
  }

  /** A handshake completes: for every safe session id and every version that the remote side answers
      with, this run ends initialized with them. */
  lemma HandshakeCompletes(id: string, version: string)
    requires BridgeSession.SafeSessionId(id)
    ensures var w := Run(Begin(""), Opening(id, version) + Closing());
            && w.session.phase == BridgeSession.Initialized && w.session.id == id && w.session.version == version
            && w.negotiated == Some((id, version)) && w.lines == [0] && w.sent == [FIRST, SecondOf(id, version)]
  {
    OpeningRuns(id, version);
    RunBoth(Begin(""), Opening(id, version), Closing(), OpeningWorlds(id, version));
    ClosingReads(id, version);
    ClosingWaits(id, version);
    ClosingEnds(id, version);
    RunChain(ClosingWorlds(id, version), Closing());
  }
}
