/** Starts, revocations, exits and shutdown of the exec supervisor racing under its two
    mutexes (internal/execworker/server.go and backend_linux.go).  Each step is one
    critical section, one process event or the end of a wait. */
module ExecSupervisor {
  import opened Basics
  import opened ExecTable

  /** Where a request is.  A process_start holds executionMu from StartChecking to StartUnlock. */
  datatype Pc =
    | StartEntry(owner: Owner)
    | StartLaunch(owner: Owner)              // executionMu held, not revoked
    | StartInsert(owner: Owner, p: nat)      // process running, record not listed
    | StartReap(owner: Owner, p: nat)        // table was closed: kill and wait
    | StartUnlock(owner: Owner)
    | RunEntry(owner: Owner)
    | RunLaunch(owner: Owner)                // executionMu released again
    | RunInsert(owner: Owner, p: nat)
    | RunReap(owner: Owner, p: nat)
    | RunWait(owner: Owner, p: nat)
    | RunRemove(owner: Owner, p: nat)
    | RevokeEntry(owner: Owner)
    | RevokeCollect(owner: Owner)            // owner is in the revoked set
    | RevokeWait(owner: Owner, found: set<nat>)
    | RevokeRemove(owner: Owner, found: set<nat>)
    | RevokeReturned(owner: Owner)
    | CloseEntry
    | CloseWait(found: set<nat>)
    | CloseReturned(first: bool)
    | Returned

  datatype World = World(executionMu: Option<nat>, revoked: set<Owner>, table: Table, threads: map<nat, Pc>, next: nat)

  function Begin(): World {
    World(None, {}, Table(map[], {}, {}, false), map[], 0)
  }

  datatype Step =
    | Arrive(pc: Pc)                         // a new request
    | Advance(thread: nat, launches: bool)   // its next section; launching may fail
    | Exit(p: nat)                           // a listed process ends and is waited for

  function Goto(w: World, t: nat, pc: Pc): World {
    w.(threads := w.threads[t := pc])
  }

  /** A process comes to life; its record exists, but the table does not list it yet. */
  function Launched(w: World, owner: Owner, kind: Kind): World {
    w.(table := w.table.(records := w.table.records[w.next := Record(owner, kind)],
                         running := w.table.running + {w.next}),
       next := w.next + 1)
  }

  function Reaped(w: World, p: nat): World {
    w.(table := w.table.(running := w.table.running - {p}))
  }

  function StartNext(w: World, t: nat, pc: Pc, launches: bool): Option<World>
    requires t in w.threads && w.threads[t] == pc
  {
    match pc
    case StartEntry(owner) =>
      if w.executionMu.Some? then None
      else if owner in w.revoked then Some(Goto(w, t, Returned))
      else Some(Goto(w.(executionMu := Some(t)), t, StartLaunch(owner)))
    case StartLaunch(owner) =>
      if launches then Some(Goto(Launched(w, owner, StartTask), t, StartInsert(owner, w.next)))
      else Some(Goto(w, t, StartUnlock(owner)))
    case StartInsert(owner, p) =>
      Some(Goto(w.(table := Inserted(w.table, p)), t,
                if w.table.closed then StartReap(owner, p) else StartUnlock(owner)))
    case StartReap(owner, p) => Some(Goto(Reaped(w, p), t, StartUnlock(owner)))
    case StartUnlock(_) => Some(Goto(w.(executionMu := None), t, Returned))
    case _ => None
  }

  function RunNext(w: World, t: nat, pc: Pc, launches: bool): Option<World>
    requires t in w.threads && w.threads[t] == pc
  {
    match pc
    case RunEntry(owner) =>
      if w.executionMu.Some? then None
      else Some(Goto(w, t, if owner in w.revoked then Returned else RunLaunch(owner)))
    case RunLaunch(owner) =>
      if launches then Some(Goto(Launched(w, owner, RunTask), t, RunInsert(owner, w.next)))
      else Some(Goto(w, t, Returned))
    case RunInsert(owner, p) =>
      Some(Goto(w.(table := Inserted(w.table, p)), t, if w.table.closed then RunReap(owner, p) else RunWait(owner, p)))
    case RunReap(owner, p) => Some(Goto(Reaped(w, p), t, Returned))
    case RunWait(owner, p) => if p in w.table.running then None else Some(Goto(w, t, RunRemove(owner, p)))
    case RunRemove(owner, p) => Some(Goto(w.(table := w.table.(items := w.table.items - {p})), t, Returned))
    case _ => None
  }

  /** Signals may fail and are ignored; the waits are what the callers rely on. */
  function EndNext(w: World, t: nat, pc: Pc): Option<World>
    requires t in w.threads && w.threads[t] == pc
  {
    match pc
    case RevokeEntry(owner) =>
      if w.executionMu.Some? then None
      else Some(Goto(w.(revoked := w.revoked + {owner}), t, RevokeCollect(owner)))
    case RevokeCollect(owner) => Some(Goto(w, t, RevokeWait(owner, OwnedItems(w.table, owner))))
    case RevokeWait(owner, found) =>
      if !(found !! w.table.running) then None else Some(Goto(w, t, RevokeRemove(owner, found)))
    case RevokeRemove(owner, found) =>
      Some(Goto(w.(table := w.table.(items := w.table.items - found)), t, RevokeReturned(owner)))
    case CloseEntry =>
      if w.table.closed then Some(Goto(w, t, CloseReturned(false)))
      else Some(Goto(w.(table := w.table.(closed := true)), t, CloseWait(RunningItems(w.table))))
    case CloseWait(found) => if !(found !! w.table.running) then None else Some(Goto(w, t, CloseReturned(true)))
    case _ => None
  }

  predicate Entry(pc: Pc) {
    pc.StartEntry? || pc.RunEntry? || pc.RevokeEntry? || pc.CloseEntry?
  }

  function Next(w: World, step: Step): Option<World> {
    match step
    case Arrive(pc) => if Entry(pc) then Some(Goto(w, w.next, pc).(next := w.next + 1)) else None
    case Exit(p) => if p in w.table.items then Some(Reaped(w, p)) else None
    case Advance(t, launches) =>
      if t !in w.threads then None
      else
        var pc := w.threads[t];
        match StartNext(w, t, pc, launches)
        case Some(v) => Some(v)
        case None =>
          match RunNext(w, t, pc, launches)
          case Some(v) => Some(v)
          case None => EndNext(w, t, pc)
  }

  function Run(w: World, steps: seq<Step>): World
    decreases |steps|
  {
    if steps == [] then w
    else
      match Next(w, steps[0])
      case None => w
      case Some(v) => Run(v, steps[1..])
  }

  // ----- invariant --------------------------------------------------------------

  predicate HoldsMutex(pc: Pc) {
    pc.StartLaunch? || pc.StartInsert? || pc.StartReap? || pc.StartUnlock?
  }

  /** A started process of this owner that is still alive or still listed. */
  predicate Lingers(t: Table, p: nat, owner: Owner) {
    p in t.records && t.records[p] == Record(owner, StartTask) && (p in t.items || p in t.running)
  }

  /** No started process of this owner is alive or listed. */
  ghost predicate Clean(t: Table, owner: Owner) {
    forall p :: !Lingers(t, p, owner)
  }

  /** The process a request has launched but not listed yet. */
  function Pending(pc: Pc): Option<nat> {
    match pc
    case StartInsert(_, p) => Some(p)
    case StartReap(_, p) => Some(p)
    case RunInsert(_, p) => Some(p)
    case RunReap(_, p) => Some(p)
    case _ => None
  }

  ghost predicate PcOk(w: World, t: nat, pc: Pc) {
    && (HoldsMutex(pc) <==> w.executionMu == Some(t))
    && (pc.StartLaunch? || pc.StartInsert? || pc.StartReap? ==> pc.owner !in w.revoked)
    && (Pending(pc).Some? ==> Pending(pc).value < w.next)
    && match pc
       case StartInsert(owner, p) => p in w.table.records && w.table.records[p] == Record(owner, StartTask)
       case StartReap(owner, p) =>
         p in w.table.records && w.table.records[p] == Record(owner, StartTask) && w.table.closed
       case RunInsert(owner, p) => p in w.table.records && w.table.records[p] == Record(owner, RunTask)
       case RunReap(owner, p) => p in w.table.records && w.table.records[p] == Record(owner, RunTask)
       case RunWait(owner, p) => p in w.table.records && w.table.records[p] == Record(owner, RunTask)
       case RunRemove(owner, p) =>
         p in w.table.records && w.table.records[p] == Record(owner, RunTask) && p !in w.table.running
       case RevokeCollect(owner) => owner in w.revoked
       case RevokeWait(owner, found) =>
         && owner in w.revoked && found <= w.table.records.Keys
         && forall p :: Lingers(w.table, p, owner) ==> p in found
       case RevokeRemove(owner, found) =>
         && owner in w.revoked && found <= w.table.records.Keys && found !! w.table.running
         && forall p :: Lingers(w.table, p, owner) ==> p in found
       case RevokeReturned(owner) => owner in w.revoked && Clean(w.table, owner)
       case CloseWait(found) => w.table.closed && RunningItems(w.table) <= found
       case CloseReturned(first) => w.table.closed && (first ==> RunningItems(w.table) == {})
       case _ => true
  }

  ghost predicate TableOk(w: World) {
    && (forall p :: p in w.table.records ==> p < w.next)
    && w.table.items <= w.table.records.Keys && w.table.running <= w.table.records.Keys
    // a started process that runs unlisted is the one the holder of executionMu just launched
    && (forall p :: p in w.table.running && p !in w.table.items && w.table.records[p].kind == StartTask ==>
          && w.executionMu.Some? && w.executionMu.value in w.threads
          && Pending(w.threads[w.executionMu.value]) == Some(p))
  }

  ghost predicate Inv(w: World) {
    && TableOk(w)
    && (forall t :: t in w.threads ==> t < w.next && PcOk(w, t, w.threads[t]))
    && (w.executionMu.Some? ==> w.executionMu.value in w.threads)
  }

  /** What every section may do to the table as far as other requests can tell. */
  ghost predicate Quiet(a: Table, b: Table, revoked: set<Owner>) {
    && (forall p :: p in a.records ==> p in b.records && b.records[p] == a.records[p])
    && (a.closed ==> b.closed && RunningItems(b) <= RunningItems(a))
    && (forall p :: p in a.records && p in b.running ==> p in a.running)
    && (forall p, owner :: owner in revoked && Lingers(b, p, owner) ==> Lingers(a, p, owner))
  }

  lemma QuietSelf(a: Table, revoked: set<Owner>)
    ensures Quiet(a, a, revoked)
  {
  }

  lemma QuietLaunch(w: World, owner: Owner, kind: Kind)
    requires TableOk(w) && (kind == StartTask ==> owner !in w.revoked)
    ensures Quiet(w.table, Launched(w, owner, kind).table, w.revoked)
  {
  }

  lemma QuietInsert(w: World, p: nat)
    requires p in w.table.records
    requires w.table.records[p].kind == StartTask ==> w.table.records[p].owner !in w.revoked
    ensures Quiet(w.table, Inserted(w.table, p), w.revoked)
  {
  }

  lemma QuietReap(w: World, p: nat)
    ensures Quiet(w.table, Reaped(w, p).table, w.revoked)
  {
  }

  lemma QuietRemove(t: Table, found: set<nat>, revoked: set<Owner>)
    ensures Quiet(t, t.(items := t.items - found), revoked)
  {
  }

  /** A request whose own section did not run still satisfies its assertion. */
  lemma OtherKept(w: World, v: World, u: nat, pc: Pc)
    requires PcOk(w, u, pc) && Quiet(w.table, v.table, w.revoked)
    requires w.next <= v.next && w.revoked <= v.revoked
    requires HoldsMutex(pc) ==> v.executionMu == Some(u) && v.revoked == w.revoked
    requires v.executionMu == Some(u) ==> HoldsMutex(pc)
    ensures PcOk(v, u, pc)
  {
  }

  /** The step of request t changed the table quietly and moved t to pc. */
  lemma Stepped(w: World, v: World, t: nat, pc: Pc)
    requires Inv(w) && t in w.threads && v.threads == w.threads[t := pc]
    requires Quiet(w.table, v.table, w.revoked) && w.next <= v.next
    requires w.revoked <= v.revoked && (v.revoked != w.revoked ==> w.executionMu.None?)
    requires v.executionMu == w.executionMu || v.executionMu == (if HoldsMutex(pc) then Some(t) else None)
    requires v.executionMu != w.executionMu ==> w.executionMu.None? || w.executionMu == Some(t)
    requires PcOk(v, t, pc) && TableOk(v)
    ensures Inv(v)
  {
    forall u | u in v.threads
      ensures u < v.next && PcOk(v, u, v.threads[u])
    {
      if u != t {
        assert PcOk(w, u, w.threads[u]);
        OtherKept(w, v, u, w.threads[u]);
      }
    }
  }

  lemma StartKeeps(w: World, t: nat, launches: bool)
    requires Inv(w) && t in w.threads && StartNext(w, t, w.threads[t], launches).Some?
    ensures Inv(StartNext(w, t, w.threads[t], launches).value)
  {
    var v := StartNext(w, t, w.threads[t], launches).value;
    assert PcOk(w, t, w.threads[t]);
    match w.threads[t] {
      case StartLaunch(owner) =>
        if launches {
          QuietLaunch(w, owner, StartTask);
        }
      case StartInsert(owner, p) => QuietInsert(w, p);
      case StartReap(owner, p) => QuietReap(w, p);
      case _ =>
    }
    Stepped(w, v, t, v.threads[t]);
  }

  lemma RunLaunchKeeps(w: World, t: nat)
    requires Inv(w) && t in w.threads && w.threads[t].RunLaunch?
    ensures Inv(RunNext(w, t, w.threads[t], true).value)
  {
    var v := RunNext(w, t, w.threads[t], true).value;
    assert PcOk(w, t, w.threads[t]);
    QuietLaunch(w, w.threads[t].owner, RunTask);
    Stepped(w, v, t, v.threads[t]);
  }

  /** The steps of a run that change the table. */
  lemma RunTableKeeps(w: World, t: nat)
    requires Inv(w) && t in w.threads
    requires w.threads[t].RunInsert? || w.threads[t].RunReap? || w.threads[t].RunRemove?
    ensures Inv(RunNext(w, t, w.threads[t], false).value)
  {
    var v := RunNext(w, t, w.threads[t], false).value;
    assert PcOk(w, t, w.threads[t]);
    match w.threads[t] {
      case RunInsert(owner, p) => QuietInsert(w, p);
      case RunReap(owner, p) => QuietReap(w, p);
      case RunRemove(owner, p) => QuietRemove(w.table, {p}, w.revoked);
    }
    Stepped(w, v, t, v.threads[t]);
  }

  lemma RunKeeps(w: World, t: nat, launches: bool)
    requires Inv(w) && t in w.threads && RunNext(w, t, w.threads[t], launches).Some?
    ensures Inv(RunNext(w, t, w.threads[t], launches).value)
  {
    if w.threads[t].RunLaunch? && launches {
      RunLaunchKeeps(w, t);
    } else if w.threads[t].RunInsert? || w.threads[t].RunReap? || w.threads[t].RunRemove? {
      RunTableKeeps(w, t);
    } else {
      var v := RunNext(w, t, w.threads[t], launches).value;
      assert PcOk(w, t, w.threads[t]);
      QuietSelf(w.table, w.revoked);
      Stepped(w, v, t, v.threads[t]);
    }
  }

  lemma RevokeRemoveKeeps(w: World, t: nat)
    requires Inv(w) && t in w.threads && w.threads[t].RevokeRemove?
    ensures Inv(EndNext(w, t, w.threads[t]).value)
  {
    var v := EndNext(w, t, w.threads[t]).value;
    assert PcOk(w, t, w.threads[t]);
    QuietRemove(w.table, w.threads[t].found, w.revoked);
    Stepped(w, v, t, v.threads[t]);
  }

  lemma EndKeeps(w: World, t: nat)
    requires Inv(w) && t in w.threads && EndNext(w, t, w.threads[t]).Some?
    ensures Inv(EndNext(w, t, w.threads[t]).value)
  {
    if w.threads[t].RevokeRemove? {
      RevokeRemoveKeeps(w, t);
    } else {
      var v := EndNext(w, t, w.threads[t]).value;
      assert PcOk(w, t, w.threads[t]);
      QuietSelf(w.table, w.revoked);
      Stepped(w, v, t, v.threads[t]);
    }
  }

  lemma StepInv(w: World, step: Step)
    requires Inv(w) && Next(w, step).Some?
    ensures Inv(Next(w, step).value)
  {
    match step
    case Advance(t, launches) =>
      if StartNext(w, t, w.threads[t], launches).Some? {
        StartKeeps(w, t, launches);
      } else if RunNext(w, t, w.threads[t], launches).Some? {
        RunKeeps(w, t, launches);
      } else {
        EndKeeps(w, t);
      }
    case Arrive(pc) => ArriveInv(w, pc);
    case Exit(p) => ExitInv(w, p);
  }

  lemma ArriveInv(w: World, pc: Pc)
    requires Inv(w) && Entry(pc)
    ensures Inv(Next(w, Arrive(pc)).value)
  {
    var v := Next(w, Arrive(pc)).value;
    QuietSelf(w.table, w.revoked);
    forall u | u in v.threads
      ensures u < v.next && PcOk(v, u, v.threads[u])
    {
      if u in w.threads {
        OtherKept(w, v, u, w.threads[u]);
      }
    }
  }

  lemma ExitInv(w: World, p: nat)
    requires Inv(w) && p in w.table.items
    ensures Inv(Reaped(w, p))
  {
    QuietReap(w, p);
    forall u | u in w.threads
      ensures PcOk(Reaped(w, p), u, w.threads[u])
    {
      OtherKept(w, Reaped(w, p), u, w.threads[u]);
    }
  }

  lemma {:induction false} RunInv(w: World, steps: seq<Step>)
    requires Inv(w)
    ensures Inv(Run(w, steps))
    decreases |steps|
  {
    if steps != [] && Next(w, steps[0]).Some? {
      StepInv(w, steps[0]);
      RunInv(Next(w, steps[0]).value, steps[1..]);
    }
  }

  // ----- what holds of every run --------------------------------------------------

  lemma StepKeepsReturned(w: World, step: Step, t: nat)
    requires Next(w, step).Some? && t in w.threads && t < w.next
    requires w.threads[t].RevokeReturned? || w.threads[t].CloseReturned?
    ensures t in Next(w, step).value.threads && Next(w, step).value.threads[t] == w.threads[t]
  {
  }

  lemma {:induction false} RunKeepsReturned(w: World, steps: seq<Step>, t: nat)
    requires Inv(w) && t in w.threads
    requires w.threads[t].RevokeReturned? || w.threads[t].CloseReturned?
    ensures t in Run(w, steps).threads && Run(w, steps).threads[t] == w.threads[t]
    decreases |steps|
  {
    if steps != [] && Next(w, steps[0]).Some? {
      StepInv(w, steps[0]);
      StepKeepsReturned(w, steps[0], t);
      RunKeepsReturned(Next(w, steps[0]).value, steps[1..], t);
    }
  }

  /** Once session_revoke of an owner has returned, none of the owner's started processes is
      listed or alive, at that moment and ever after. */
  lemma RevokedStaysClean(before: seq<Step>, after: seq<Step>, t: nat)
    requires t in Run(Begin(), before).threads && Run(Begin(), before).threads[t].RevokeReturned?
    ensures var owner := Run(Begin(), before).threads[t].owner;
            Clean(Run(Begin(), before).table, owner) && Clean(Run(Run(Begin(), before), after).table, owner)
  {
    var w := Run(Begin(), before);
    RunInv(Begin(), before);
    RunInv(w, after);
    RunKeepsReturned(w, after, t);
    assert PcOk(w, t, w.threads[t]);
    var v := Run(w, after);
    assert PcOk(v, t, v.threads[t]);
  }

  /** Once the first close has returned, no listed process runs and nothing is listed any more. */
  lemma ClosedStaysQuiet(before: seq<Step>, after: seq<Step>, t: nat)
    requires t in Run(Begin(), before).threads && Run(Begin(), before).threads[t] == CloseReturned(true)
    ensures var w := Run(Begin(), before);
            var v := Run(w, after);
            RunningItems(w.table) == {} && RunningItems(v.table) == {} && v.table.items <= w.table.items
  {
    var w := Run(Begin(), before);
    RunInv(Begin(), before);
    RunInv(w, after);
    RunKeepsReturned(w, after, t);
    assert PcOk(w, t, w.threads[t]);
    var v := Run(w, after);
    assert PcOk(v, t, v.threads[t]);
    ClosedAddsNothing(w, after);
  }

  lemma {:induction false} ClosedAddsNothing(w: World, steps: seq<Step>)
    requires w.table.closed
    ensures Run(w, steps).table.items <= w.table.items
    decreases |steps|
  {
    if steps != [] && Next(w, steps[0]).Some? {
      ClosedStep(w, steps[0]);
      ClosedAddsNothing(Next(w, steps[0]).value, steps[1..]);
    }
  }

  lemma ClosedStep(w: World, step: Step)
    requires w.table.closed && Next(w, step).Some?
    ensures Next(w, step).value.table.closed && Next(w, step).value.table.items <= w.table.items
  {
  }

  // ----- why the claims stop where they do -----------------------------------------

  /** exec_run passes its check, the owner is revoked completely, and only then the run is
      launched and listed. */
  function SlowRunSteps(owner: Owner): seq<Step> {
    [Arrive(RunEntry(owner)), Advance(0, true), Arrive(RevokeEntry(owner)),
     Advance(1, true), Advance(1, true), Advance(1, true), Advance(1, true), Advance(0, true), Advance(0, true)]
  }

  function SlowRunWorlds(owner: Owner): seq<World> {
    var w1 := Goto(Begin(), 0, RunEntry(owner)).(next := 1);
    var w2 := Goto(w1, 0, RunLaunch(owner));
    var w3 := Goto(w2, 1, RevokeEntry(owner)).(next := 2);
    var w4 := Goto(w3.(revoked := w3.revoked + {owner}), 1, RevokeCollect(owner));
    var found := OwnedItems(w4.table, owner);
    var w5 := Goto(w4, 1, RevokeWait(owner, found));
    var w6 := Goto(w5, 1, RevokeRemove(owner, found));
    var w7 := Goto(w6.(table := w6.table.(items := w6.table.items - found)), 1, RevokeReturned(owner));
    var w8 := Goto(Launched(w7, owner, RunTask), 0, RunInsert(owner, 2));
    [w1, w2, w3, w4, w5, w6, w7, w8, Goto(w8.(table := Inserted(w8.table, 2)), 0, RunWait(owner, 2))]
  }

  lemma SlowRun(owner: Owner)
    ensures Run(Begin(), SlowRunSteps(owner)) == SlowRunWorlds(owner)[8]
  {
    var steps, ws := SlowRunSteps(owner), SlowRunWorlds(owner);
    assert Next(Begin(), steps[0]) == Some(ws[0]);
    assert Next(ws[0], steps[1]) == Some(ws[1]);
    assert Next(ws[1], steps[2]) == Some(ws[2]);
    assert Next(ws[2], steps[3]) == Some(ws[3]);
    assert Next(ws[3], steps[4]) == Some(ws[4]);
    assert Next(ws[4], steps[5]) == Some(ws[5]);
    assert Next(ws[5], steps[6]) == Some(ws[6]);
    assert Next(ws[6], steps[7]) == Some(ws[7]);
    assert Next(ws[7], steps[8]) == Some(ws[8]);
    RunSteps(Begin(), steps, ws);
  }

  /** exec_run drops executionMu before it launches, so its process may be listed after the
      owner's revocation has returned. */
  lemma ExecRunMayOutliveRevoke(owner: Owner)
    ensures exists steps, t, p :: OutlivesRevoke(Run(Begin(), steps), t, p, owner)
  {
    SlowRun(owner);
    assert OutlivesRevoke(SlowRunWorlds(owner)[8], 1, 2, owner);
  }

  predicate OutlivesRevoke(w: World, t: nat, p: nat, owner: Owner) {
    && t in w.threads && w.threads[t] == RevokeReturned(owner)
    && p in w.table.items && p in w.table.running && p in w.table.records
    && w.table.records[p] == Record(owner, RunTask)
  }

  /** A run is the chain of its worlds. */
  lemma {:induction false} RunSteps(w: World, steps: seq<Step>, worlds: seq<World>)
    requires |steps| == |worlds| > 0 && Next(w, steps[0]) == Some(worlds[0])
    requires forall k :: 1 <= k < |steps| ==> Next(worlds[k - 1], steps[k]) == Some(worlds[k])
    ensures Run(w, steps) == worlds[|worlds| - 1]
    decreases |steps|
  {
    if |steps| > 1 {
      RunSteps(worlds[0], steps[1..], worlds[1..]);
    } else {
      assert steps[1..] == [];
    }
  }
}
