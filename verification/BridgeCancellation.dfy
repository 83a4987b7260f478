/** Forwarding a cancellation in two critical sections: the mark on the job it names, and newJob for
    the cancellation itself (cmd/stdio-bridge/bridge.go).  When a cancellation becomes an empty job. */
module BridgeCancellation {
  import opened Basics
  import opened BridgeProtocol
  import opened BridgeSafety

  // ----- steps of a run --------------------------------------------------------

  ghost predicate EnabledAt(w: World, steps: seq<Step>, n: nat)
    requires n < |steps|
  {
    Next(Run(w, steps[..n]), steps[n]).Some?
  }

  /** The run gets as far as the n-th step, and makes it. */
  ghost predicate Makes(w: World, steps: seq<Step>, n: nat)
    requires n < |steps|
  {
    forall m :: 0 <= m <= n ==> EnabledAt(w, steps, m)
  }

  lemma MakesFirst(w: World, steps: seq<Step>)
    requires steps != []
    ensures Run(w, steps[..0]) == w
    ensures EnabledAt(w, steps, 0) <==> Next(w, steps[0]).Some?
    ensures Makes(w, steps, 0) <==> Next(w, steps[0]).Some?
  {
    assert steps[..0] == [];
  }

  lemma EnabledLater(w: World, steps: seq<Step>, n: nat)
    requires n + 1 < |steps| && Next(w, steps[0]).Some?
    ensures EnabledAt(w, steps, n + 1) <==> EnabledAt(Next(w, steps[0]).value, steps[1..], n)
  {
    RunCons(w, steps, n);
  }

  lemma MakesLater(w: World, steps: seq<Step>, n: nat)
    requires n + 1 < |steps| && Next(w, steps[0]).Some?
    ensures Makes(w, steps, n + 1) <==> Makes(Next(w, steps[0]).value, steps[1..], n)
    ensures Run(w, steps[..n + 1]) == Run(Next(w, steps[0]).value, steps[1..][..n])
  {
    RunCons(w, steps, n);
    MakesFirst(w, steps);
    forall m | 0 <= m <= n
      ensures EnabledAt(w, steps, m + 1) <==> EnabledAt(Next(w, steps[0]).value, steps[1..], m)
    {
      EnabledLater(w, steps, m);
    }
    if Makes(Next(w, steps[0]).value, steps[1..], n) {
      forall m | 0 <= m <= n + 1
        ensures EnabledAt(w, steps, m)
      {
        if m > 0 {
          assert EnabledAt(Next(w, steps[0]).value, steps[1..], m - 1);
        }
      }
    }
  }

  /** One more step of a run. */
  lemma {:induction false} RunSnoc(w: World, steps: seq<Step>, n: nat)
    requires n < |steps| && Makes(w, steps, n)
    ensures Next(Run(w, steps[..n]), steps[n]) == Some(Run(w, steps[..n + 1]))
    decreases n
  {
    MakesFirst(w, steps);
    assert EnabledAt(w, steps, 0);
    RunCons(w, steps, n);
    if n > 0 {
      MakesLater(w, steps, n - 1);
      RunSnoc(Next(w, steps[0]).value, steps[1..], n - 1);
    } else {
      assert steps[1..][..0] == [];
    }
  }

  // ----- at most one mark ------------------------------------------------------

  /** A cancellation names this job for the first time. */
  predicate Forwardable(w: World, target: Option<string>) {
    target.Some? && target.value in w.inflight && w.inflight[target.value] !in w.forwarded
  }

  /** The run's n-th step reads a cancellation that is to be forwarded and names job j. */
  ghost predicate MarksAt(w: World, steps: seq<Step>, n: nat, j: nat)
    requires n < |steps|
  {
    var v := Run(w, steps[..n]);
    && Makes(w, steps, n) && steps[n].ReadCancellation?
    && Forwardable(v, steps[n].target) && v.inflight[steps[n].target.value] == j
  }

  lemma ScannerForwards(w: World, step: Step)
    requires ScannerStep(step) && ScannerNext(w, step).Some?
    ensures w.forwarded <= ScannerNext(w, step).value.forwarded
  {
    if step.StartLifecycle? {
      StartSteps(w);
    }
  }

  lemma StepForwards(w: World, step: Step)
    requires HandInv(w) && Next(w, step).Some?
    ensures w.forwarded <= Next(w, step).value.forwarded
  {
    if ScannerStep(step) {
      ScannerForwards(w, step);
    } else {
      WorkerSteps(w, step);
    }
  }

  lemma {:induction false} MarkStays(w: World, steps: seq<Step>, m: nat, n: nat, j: nat)
    requires Inv(w) && m < n < |steps| && MarksAt(w, steps, m, j) && Makes(w, steps, n)
    ensures j in Run(w, steps[..n]).forwarded
    decreases n
  {
    RunInv(w, steps[..n - 1]);
    RunSnoc(w, steps, n - 1);
    if m < n - 1 {
      MarkStays(w, steps, m, n - 1, j);
    }
    StepForwards(Run(w, steps[..n - 1]), steps[n - 1]);
  }

  /** In every run the cancellation of a job is forwarded at most once. */
  lemma ForwardedOnce(configuredId: string, steps: seq<Step>, j: nat, m: nat, n: nat)
    requires m < n < |steps| && MarksAt(Begin(configuredId), steps, m, j)
    ensures !MarksAt(Begin(configuredId), steps, n, j)
  {
    StartInv(configuredId);
    if Makes(Begin(configuredId), steps, n) {
      MarkStays(Begin(configuredId), steps, m, n, j);
    }
  }

  // ----- the empty job ---------------------------------------------------------

  /** The cancellation about to get a job carries an id that is in flight. */
  predicate Collides(w: World) {
    w.scanner.Forwarding? && w.scanner.message.key.Some? && w.scanner.message.key.value in w.inflight
  }

  /** An empty job exists, or has ended the process. */
  predicate Doomed(w: World) {
    w.fate != Sound || w.scanner == HoldingEmpty
  }

  lemma ScannerDooms(w: World, step: Step)
    requires ScannerStep(step) && Next(w, step).Some? && !Doomed(w)
    ensures Doomed(Next(w, step).value) <==> step.Forward? && Collides(w)
  {
    if step.StartLifecycle? {
      StartSteps(w);
    }
  }

  lemma StepDooms(w: World, step: Step)
    requires HandInv(w) && Next(w, step).Some? && !Doomed(w)
    ensures Doomed(Next(w, step).value) <==> step.Forward? && Collides(w)
  {
    if ScannerStep(step) {
      ScannerDooms(w, step);
    } else {
      WorkerSteps(w, step);
    }
  }

  lemma DoomedScanner(w: World, step: Step)
    requires ScannerStep(step) && Next(w, step).Some? && Doomed(w)
    ensures Doomed(Next(w, step).value)
  {
    if step.StartLifecycle? {
      StartSteps(w);
    }
  }

  lemma {:induction false} DoomedForever(w: World, steps: seq<Step>)
    requires HandInv(w) && Doomed(w)
    ensures Doomed(Run(w, steps))
    decreases |steps|
  {
    if steps != [] && Next(w, steps[0]).Some? {
      StepHand(w, steps[0]);
      if ScannerStep(steps[0]) {
        DoomedScanner(w, steps[0]);
      } else {
        WorkerSteps(w, steps[0]);
      }
      DoomedForever(Next(w, steps[0]).value, steps[1..]);
    }
  }

  /** The run's n-th step is the newJob of a cancellation whose id is in flight at that moment. */
  ghost predicate CollidesAt(w: World, steps: seq<Step>, n: nat)
    requires n < |steps|
  {
    Makes(w, steps, n) && steps[n].Forward? && Collides(Run(w, steps[..n]))
  }

  ghost predicate EverCollides(w: World, steps: seq<Step>) {
    exists n :: 0 <= n < |steps| && CollidesAt(w, steps, n)
  }

  lemma ShiftCollision(w: World, steps: seq<Step>)
    requires steps != [] && Next(w, steps[0]).Some?
    ensures EverCollides(w, steps) <==>
              (steps[0].Forward? && Collides(w)) || EverCollides(Next(w, steps[0]).value, steps[1..])
  {
    var v, rest := Next(w, steps[0]).value, steps[1..];
    MakesFirst(w, steps);
    if n :| 0 <= n < |steps| && CollidesAt(w, steps, n) {
      if n > 0 {
        MakesLater(w, steps, n - 1);
        assert CollidesAt(v, rest, n - 1);
      }
    }
    if steps[0].Forward? && Collides(w) {
      assert CollidesAt(w, steps, 0);
    }
    if n :| 0 <= n < |rest| && CollidesAt(v, rest, n) {
      MakesLater(w, steps, n);
      assert CollidesAt(w, steps, n + 1);
    }
  }

  lemma Blocked(w: World, steps: seq<Step>)
    requires steps == [] || Next(w, steps[0]).None?
    ensures Run(w, steps) == w && !EverCollides(w, steps)
  {
    if steps != [] {
      MakesFirst(w, steps);
    }
  }

  lemma {:induction false} DoomedIff(w: World, steps: seq<Step>)
    requires HandInv(w) && !Doomed(w)
    ensures Doomed(Run(w, steps)) <==> EverCollides(w, steps)
    decreases |steps|
  {
    if steps == [] || Next(w, steps[0]).None? {
      Blocked(w, steps);
    } else {
      var v := Next(w, steps[0]).value;
      StepDooms(w, steps[0]);
      StepHand(w, steps[0]);
      ShiftCollision(w, steps);
      if Doomed(v) {
        DoomedForever(v, steps[1..]);
      } else {
        DoomedIff(v, steps[1..]);
      }
    }
  }

  ghost predicate CanCrash(w: World) {
    exists steps :: Run(w, steps).fate == Crashed
  }

  lemma RunOne(w: World, step: Step)
    requires Next(w, step).Some?
    ensures Run(w, [step]) == Next(w, step).value
  {
    assert [step][1..] == [];
  }

  lemma DoomedCanCrash(w: World)
    requires Doomed(w)
    ensures CanCrash(w)
  {
    if w.fate == Crashed {
      assert Run(w, []).fate == Crashed;
    } else {
      var step := if w.scanner == HoldingEmpty then DropEmpty else TakeEmpty;
      RunOne(w, step);
      assert Run(w, [step]).fate == Crashed;
    }
  }

  /** A run of the bridge has made an empty job exactly when some cancellation got to its newJob with an
      id in flight at that moment; no other run crashes, and such a run can. */
  lemma CrashesIff(configuredId: string, steps: seq<Step>)
    ensures Doomed(Run(Begin(configuredId), steps)) <==> EverCollides(Begin(configuredId), steps)
    ensures Run(Begin(configuredId), steps).fate == Crashed ==> EverCollides(Begin(configuredId), steps)
    ensures EverCollides(Begin(configuredId), steps) ==> CanCrash(Run(Begin(configuredId), steps))
  {
    StartInv(configuredId);
    DoomedIff(Begin(configuredId), steps);
    if Doomed(Run(Begin(configuredId), steps)) {
      DoomedCanCrash(Run(Begin(configuredId), steps));
    }
  }

  // ----- from the mark on ------------------------------------------------------

  ghost predicate NoCancellation(steps: seq<Step>) {
    forall n :: 0 <= n < |steps| ==> !steps[n].ReadCancellation?
  }

  /** Nothing can go wrong with the cancellation in hand. */
  predicate Safe(w: World) {
    !Doomed(w) && !Collides(w)
  }

  lemma SafeScanner(w: World, step: Step)
    requires ScannerStep(step) && Next(w, step).Some? && !step.ReadCancellation? && !Doomed(w)
    ensures !Next(w, step).value.scanner.Forwarding?
  {
    if step.StartLifecycle? {
      StartSteps(w);
    }
  }

  /** Workers only take ids out of the table. */
  lemma SafeStep(w: World, step: Step)
    requires HandInv(w) && Next(w, step).Some? && !step.ReadCancellation? && Safe(w)
    ensures Safe(Next(w, step).value)
  {
    StepDooms(w, step);
    if ScannerStep(step) {
      SafeScanner(w, step);
    } else {
      WorkerSteps(w, step);
    }
  }

  lemma {:induction false} SafeRun(w: World, steps: seq<Step>)
    requires HandInv(w) && NoCancellation(steps) && Safe(w)
    ensures Safe(Run(w, steps))
    decreases |steps|
  {
    if steps != [] && Next(w, steps[0]).Some? {
      SafeStep(w, steps[0]);
      StepHand(w, steps[0]);
      SafeRun(Next(w, steps[0]).value, steps[1..]);
    }
  }

  /** How far a job is from the end of finish. */
  function Distance(stage: Stage): nat {
    match stage
    case Held => 9
    case Queued => 8
    case Asking => 7
    case Parked(_) | Ready(_, _) | Flying => 6
    case Reporting | Writing(_) => 5
    case FailingAttempt => 4
    case Closing => 3
    case Finishing => 2
    case Gone => 0
  }

  /** Any job that a worker may have can be brought one stage closer to its end. */
  lemma Hurry(w: World, j: nat) returns (step: Step)
    requires j in w.jobs && !w.jobs[j].stage.Held? && !w.jobs[j].stage.Gone?
    ensures !ScannerStep(step) && step.job == j && WorkerNext(w, step).Some?
    ensures var v := WorkerNext(w, step).value;
            j in v.jobs && Distance(v.jobs[j].stage) < Distance(w.jobs[j].stage)
  {
    match w.jobs[j].stage {
      case Queued => step := Take(j);
      case Asking => step := Ask(j);
      case Parked(_) => step := Timeout(j);
      case Ready(_, _) => step := Send(j, false);
      case Flying => step := Receive(j, Lost(false));
      case Reporting | Writing(_) => step := Write(j);
      case FailingAttempt => step := FailAttempt(j);
      case Closing => step := Close(j);
      case Finishing => step := Finish(j);
    }
  }

  /** The cancellation has a job of its own, with its context, on the way to the control worker. */
  predicate Usable(w: World, message: Message, j: nat) {
    !Doomed(w) && w.scanner == Dispatching(j, true) && j in w.jobs && w.jobs[j].message == message
  }

  function Left(w: World): nat
    requires InflightInv(w)
  {
    if Collides(w) then Distance(w.jobs[w.inflight[w.scanner.message.key.value]].stage) else 0
  }

  /** A run on which the cancellation gets its job: whoever has its id finishes first. */
  lemma {:induction false} MayBeUsable(w: World) returns (steps: seq<Step>)
    requires HandInv(w) && InflightInv(w) && !Doomed(w) && w.scanner.Forwarding?
    ensures NoCancellation(steps) && Usable(Run(w, steps), w.scanner.message, w.nextJob)
    decreases Left(w)
  {
    if Collides(w) {
      var j := w.inflight[w.scanner.message.key.value];
      var step := Hurry(w, j);
      Overtaken(w, step, j);
      var rest := MayBeUsable(Next(w, step).value);
      steps := [step] + rest;
      assert steps[1..] == rest;
    } else {
      steps := [Forward];
      RunOne(w, Forward);
    }
  }

  lemma Overtaken(w: World, step: Step, j: nat)
    requires HandInv(w) && InflightInv(w) && !Doomed(w) && Collides(w) && j == w.inflight[w.scanner.message.key.value]
    requires !ScannerStep(step) && step.job == j && Next(w, step).Some?
    requires var v := Next(w, step).value; j in v.jobs && Distance(v.jobs[j].stage) < Distance(w.jobs[j].stage)
    ensures var v := Next(w, step).value;
            && HandInv(v) && InflightInv(v) && !Doomed(v) && v.scanner == w.scanner && v.nextJob == w.nextJob
            && Left(v) < Left(w)
  {
    StepHand(w, step);
    StepInflight(w, step);
    WorkerSteps(w, step);
  }

  /** From the mark on, until another cancellation is read: no continuation makes an empty job if and
      only if the id that the cancellation carries is not in flight at the mark.  Even if it is, some
      continuation gives the cancellation a usable job. */
  lemma CancellationUsable(configuredId: string, before: seq<Step>)
    requires var w := Run(Begin(configuredId), before); w.scanner.Forwarding? && !Doomed(w)
    ensures var w := Run(Begin(configuredId), before);
            && ((forall steps :: NoCancellation(steps) ==> !Doomed(Run(w, steps))) <==> !Collides(w))
            && exists steps :: NoCancellation(steps) && Usable(Run(w, steps), w.scanner.message, w.nextJob)
  {
    var w := Run(Begin(configuredId), before);
    StartInv(configuredId);
    RunInv(Begin(configuredId), before);
    var usable := MayBeUsable(w);
    if Collides(w) {
      RunOne(w, Forward);
      assert NoCancellation([Forward]) && Doomed(Run(w, [Forward]));
    } else {
      forall steps | NoCancellation(steps)
        ensures !Doomed(Run(w, steps))
      {
        SafeRun(w, steps);
      }
    }
  }

  // ----- which cancellations are harmless ------------------------------------------------

  predicate CarriesId(w: World) {
    w.scanner.Forwarding? && w.scanner.message.key.Some?
  }

  ghost predicate Anonymous(steps: seq<Step>) {
    forall n :: 0 <= n < |steps| && steps[n].ReadCancellation? ==> steps[n].message.key.None?
  }

  lemma AnonymousScanner(w: World, step: Step)
    requires ScannerStep(step) && Next(w, step).Some? && !CarriesId(w)
    requires step.ReadCancellation? ==> step.message.key.None?
    ensures !CarriesId(Next(w, step).value)
  {
    if step.StartLifecycle? {
      StartSteps(w);
    }
  }

  lemma {:induction false} AnonymousRun(w: World, steps: seq<Step>)
    requires HandInv(w) && !Doomed(w) && !CarriesId(w) && Anonymous(steps)
    ensures !Doomed(Run(w, steps))
    decreases |steps|
  {
    if steps != [] && Next(w, steps[0]).Some? {
      StepDooms(w, steps[0]);
      StepHand(w, steps[0]);
      if ScannerStep(steps[0]) {
        AnonymousScanner(w, steps[0]);
      } else {
        WorkerSteps(w, steps[0]);
      }
      AnonymousRun(Next(w, steps[0]).value, steps[1..]);
    }
  }

  /** Cancellations that carry no id, as the protocol has them, never crash the bridge. */
  lemma NotificationsNeverCrash(configuredId: string, steps: seq<Step>)
    requires Anonymous(steps)
    ensures !Doomed(Run(Begin(configuredId), steps))
  {
    StartInv(configuredId);
    AnonymousRun(Begin(configuredId), steps);
  }

  /** A run that crashes: a cancellation that carries the id it cancels. */
  function SelfCancellation(): seq<Step> {
    var call := Message(Some("1"), Other, false, true);
    [Read(call), StartLifecycle, Enqueue, ReadCancellation(call, Some("1")), Forward, DropEmpty]
  }

  lemma SelfCancellationCrashes()
    ensures Run(Begin("s"), SelfCancellation()).fate == Crashed
  {
    var steps := SelfCancellation();
    var w0 := Begin("s");
    var w1 := Next(w0, steps[0]).value;
    var w2 := Next(w1, steps[1]).value;
    var w3 := Next(w2, steps[2]).value;
    assert w3.inflight == map["1" := 0];
    var w4 := Next(w3, steps[3]).value;
    var w5 := Next(w4, steps[4]).value;
    RunOne(w5, DropEmpty);
    assert steps[1..] == [steps[1]] + steps[2..] && steps[2..] == [steps[2]] + steps[3..];
    assert steps[3..] == [steps[3]] + steps[4..] && steps[4..] == [steps[4]] + [DropEmpty];
    assert Run(w4, steps[4..]) == Run(w5, [DropEmpty]);
    assert Run(w3, steps[3..]) == Run(w4, steps[4..]);
    assert Run(w2, steps[2..]) == Run(w3, steps[3..]);
    assert Run(w1, steps[1..]) == Run(w2, steps[2..]);
  }
}
