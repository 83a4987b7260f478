/** Which requests of an owner a revocation can miss: exactly those between the check of the
    revoked set and the listing of their process (internal/execworker/server.go,
    internal/execworker/backend_linux.go). */
module ExecRevocation {
  import opened Basics
  import opened ExecTable
  import opened ExecSupervisor

  // ----- every running process is listed or in the hands of a request ------------------------------

  ghost predicate Claimed(w: World, p: nat) {
    exists t :: t in w.threads && Pending(w.threads[t]) == Some(p)
  }

  /** What is pending runs, is not listed, and is no other request's. */
  ghost predicate HeldAlone(w: World, t: nat, p: nat)
    requires t in w.threads
  {
    && p in w.table.running && p !in w.table.items
    && forall u :: u in w.threads && Pending(w.threads[u]) == Some(p) ==> u == t
  }

  ghost predicate Tracked(w: World) {
    && Inv(w)
    && (forall p :: p in w.table.running && p !in w.table.items ==> Claimed(w, p))
    && (forall t :: t in w.threads && Pending(w.threads[t]).Some? ==> HeldAlone(w, t, Pending(w.threads[t]).value))
  }

  /** The section of request t: all it launches it holds, and what it lets go of it lists or kills. */
  lemma Holds(w: World, v: World, t: nat, pc: Pc)
    requires Tracked(w) && Inv(v) && t in w.threads && v.threads == w.threads[t := pc]
    requires forall p :: p in v.table.running && p !in v.table.items ==>
               Pending(pc) == Some(p)
               || (p in w.table.running && p !in w.table.items && Pending(w.threads[t]) != Some(p))
    requires Pending(pc).Some? ==>
               && Pending(pc).value in v.table.running && Pending(pc).value !in v.table.items
               && (Pending(pc) == Pending(w.threads[t]) || Pending(pc).value >= w.next)
    requires forall p :: p in w.table.running && p !in w.table.items && Pending(w.threads[t]) != Some(p) ==>
               p in v.table.running && p !in v.table.items
    ensures Tracked(v)
  {
    forall p | p in v.table.running && p !in v.table.items
      ensures Claimed(v, p)
    {
      if Pending(pc) == Some(p) {
        assert v.threads[t] == pc;
      } else {
        assert Claimed(w, p);
        var u :| u in w.threads && Pending(w.threads[u]) == Some(p);
        assert u in v.threads && v.threads[u] == w.threads[u];
      }
    }
    forall u | u in v.threads && Pending(v.threads[u]).Some?
      ensures HeldAlone(v, u, Pending(v.threads[u]).value)
    {
      if u != t {
        assert PcOk(w, u, w.threads[u]);
        assert HeldAlone(w, u, Pending(w.threads[u]).value);
      } else if Pending(pc) == Pending(w.threads[t]) {
        assert HeldAlone(w, t, Pending(pc).value);
      } else {
        forall s | s in w.threads && Pending(w.threads[s]).Some?
          ensures Pending(w.threads[s]).value < w.next
        {
          assert PcOk(w, s, w.threads[s]);
        }
      }
    }
  }

  lemma StartTracked(w: World, t: nat, launches: bool)
    requires Tracked(w) && t in w.threads && StartNext(w, t, w.threads[t], launches).Some?
    ensures Tracked(StartNext(w, t, w.threads[t], launches).value)
  {
    var v := StartNext(w, t, w.threads[t], launches).value;
    StartKeeps(w, t, launches);
    if Pending(w.threads[t]).Some? {
      assert HeldAlone(w, t, Pending(w.threads[t]).value);
    }
    Holds(w, v, t, v.threads[t]);
  }

  lemma RunTracked(w: World, t: nat, launches: bool)
    requires Tracked(w) && t in w.threads && RunNext(w, t, w.threads[t], launches).Some?
    ensures Tracked(RunNext(w, t, w.threads[t], launches).value)
  {
    var v := RunNext(w, t, w.threads[t], launches).value;
    RunKeeps(w, t, launches);
    assert PcOk(w, t, w.threads[t]);
    if Pending(w.threads[t]).Some? {
      assert HeldAlone(w, t, Pending(w.threads[t]).value);
    }
    Holds(w, v, t, v.threads[t]);
  }

  lemma EndTracked(w: World, t: nat)
    requires Tracked(w) && t in w.threads && EndNext(w, t, w.threads[t]).Some?
    ensures Tracked(EndNext(w, t, w.threads[t]).value)
  {
    var v := EndNext(w, t, w.threads[t]).value;
    EndKeeps(w, t);
    assert PcOk(w, t, w.threads[t]);
    Holds(w, v, t, v.threads[t]);
  }

  lemma ArriveTracked(w: World, pc: Pc)
    requires Tracked(w) && Entry(pc)
    ensures Tracked(Next(w, Arrive(pc)).value)
  {
    var v := Next(w, Arrive(pc)).value;
    ArriveInv(w, pc);
    forall p | p in v.table.running && p !in v.table.items
      ensures Claimed(v, p)
    {
      assert Claimed(w, p);
      var u :| u in w.threads && Pending(w.threads[u]) == Some(p);
      assert u in v.threads && v.threads[u] == w.threads[u];
    }
    forall u | u in v.threads && Pending(v.threads[u]).Some?
      ensures HeldAlone(v, u, Pending(v.threads[u]).value)
    {
      assert HeldAlone(w, u, Pending(w.threads[u]).value);
    }
  }

  lemma ExitTracked(w: World, p: nat)
    requires Tracked(w) && p in w.table.items
    ensures Tracked(Reaped(w, p))
  {
    var v := Reaped(w, p);
    ExitInv(w, p);
    forall q | q in v.table.running && q !in v.table.items
      ensures Claimed(v, q)
    {
      assert Claimed(w, q);
    }
    forall u | u in v.threads && Pending(v.threads[u]).Some?
      ensures HeldAlone(v, u, Pending(v.threads[u]).value)
    {
      assert HeldAlone(w, u, Pending(w.threads[u]).value);
    }
  }

  lemma StepTracked(w: World, step: Step)
    requires Tracked(w) && Next(w, step).Some?
    ensures Tracked(Next(w, step).value)
  {
    match step
    case Advance(t, launches) =>
      if StartNext(w, t, w.threads[t], launches).Some? {
        StartTracked(w, t, launches);
      } else if RunNext(w, t, w.threads[t], launches).Some? {
        RunTracked(w, t, launches);
      } else {
        EndTracked(w, t);
      }
    case Arrive(pc) => ArriveTracked(w, pc);
    case Exit(p) => ExitTracked(w, p);
  }

  /** In every interleaving each running process that is not listed is held by exactly one request. */
  lemma {:induction false} RunTrackedAll(w: World, steps: seq<Step>)
    requires Tracked(w)
    ensures Tracked(Run(w, steps))
    decreases |steps|
  {
    if steps != [] && Next(w, steps[0]).Some? {
      StepTracked(w, steps[0]);
      RunTrackedAll(Next(w, steps[0]).value, steps[1..]);
    }
  }

  // ----- no such request: the revocation takes everything ------------------------------------------------

  /** An exec_run of the owner that has passed the check and whose process is not listed yet. */
  predicate Straggles(pc: Pc, owner: Owner) {
    (pc.RunLaunch? || pc.RunInsert? || pc.RunReap?) && pc.owner == owner
  }

  ghost predicate NoStraggler(w: World, owner: Owner) {
    forall t :: t in w.threads ==> !Straggles(w.threads[t], owner)
  }

  /** A process of this owner, of either kind, that is alive or listed. */
  predicate Remains(t: Table, p: nat, owner: Owner) {
    p in t.records && t.records[p].owner == owner && (p in t.items || p in t.running)
  }

  ghost predicate Gone(t: Table, owner: Owner) {
    forall p :: !Remains(t, p, owner)
  }

  ghost predicate AllIn(t: Table, owner: Owner, found: set<nat>) {
    forall p :: Remains(t, p, owner) ==> p in found
  }

  /** The owner is revoked, nothing of it can start any more, and revocation t is to see all there is. */
  ghost predicate Sealed(w: World, t: nat, owner: Owner) {
    && Tracked(w) && owner in w.revoked && NoStraggler(w, owner) && t in w.threads
    && match w.threads[t]
       case RevokeCollect(o) => o == owner
       case RevokeWait(o, found) => o == owner && AllIn(w.table, owner, found)
       case RevokeRemove(o, found) => o == owner && AllIn(w.table, owner, found) && found !! w.table.running
       case RevokeReturned(o) => o == owner && Gone(w.table, owner)
       case _ => false
  }

  /** A process of a revoked owner that runs unlisted is in the hands of a straggler. */
  lemma HeldByStraggler(w: World, p: nat, owner: Owner)
    requires Tracked(w) && owner in w.revoked && Remains(w.table, p, owner) && p !in w.table.items
    ensures !NoStraggler(w, owner)
  {
    assert Claimed(w, p);
    var u :| u in w.threads && Pending(w.threads[u]) == Some(p);
    assert PcOk(w, u, w.threads[u]);
    assert Straggles(w.threads[u], owner);
  }

  /** Without stragglers every process of a revoked owner is listed. */
  lemma AllListed(w: World, owner: Owner)
    requires Tracked(w) && owner in w.revoked && NoStraggler(w, owner)
    ensures AllIn(w.table, owner, OwnedItems(w.table, owner))
  {
    forall p | Remains(w.table, p, owner)
      ensures p in OwnedItems(w.table, owner)
    {
      if p !in w.table.items {
        HeldByStraggler(w, p, owner);
      }
    }
  }

  /** No process of the owner is launched or listed any more. */
  ghost predicate OnlyLeave(a: Table, b: Table, owner: Owner) {
    && (forall p :: Remains(b, p, owner) ==> Remains(a, p, owner))
    && (forall p :: p in a.records && p in b.running ==> p in a.running)
    && a.records.Keys <= b.records.Keys
  }

  lemma StepLeaves(w: World, step: Step, owner: Owner)
    requires Tracked(w) && owner in w.revoked && NoStraggler(w, owner) && Next(w, step).Some?
    ensures OnlyLeave(w.table, Next(w, step).value.table, owner)
    ensures NoStraggler(Next(w, step).value, owner) && owner in Next(w, step).value.revoked
  {
    if step.Advance? {
      assert PcOk(w, step.thread, w.threads[step.thread]);
      assert !Straggles(w.threads[step.thread], owner);
    }
  }

  /** A section of the revocation itself. */
  lemma SealedOwn(w: World, t: nat, launches: bool, owner: Owner)
    requires Sealed(w, t, owner) && Next(w, Advance(t, launches)).Some?
    ensures Sealed(Next(w, Advance(t, launches)).value, t, owner)
  {
    var v := Next(w, Advance(t, launches)).value;
    StepTracked(w, Advance(t, launches));
    if w.threads[t].RevokeCollect? {
      AllListed(w, owner);
    }
    assert EndNext(w, t, w.threads[t]) == Some(v);
  }

  lemma OthersStay(w: World, step: Step, t: nat)
    requires t in w.threads && t < w.next && Next(w, step).Some? && (step.Advance? ==> step.thread != t)
    ensures t in Next(w, step).value.threads && Next(w, step).value.threads[t] == w.threads[t]
  {
  }

  lemma SealedOther(w: World, step: Step, t: nat, owner: Owner)
    requires Sealed(w, t, owner) && Next(w, step).Some? && (step.Advance? ==> step.thread != t)
    ensures Sealed(Next(w, step).value, t, owner)
  {
    StepTracked(w, step);
    StepLeaves(w, step, owner);
    OthersStay(w, step, t);
    assert PcOk(w, t, w.threads[t]);
  }

  lemma SealedStep(w: World, step: Step, t: nat, owner: Owner)
    requires Sealed(w, t, owner) && Next(w, step).Some?
    ensures Sealed(Next(w, step).value, t, owner)
  {
    if step.Advance? && step.thread == t {
      SealedOwn(w, t, step.launches, owner);
    } else {
      SealedOther(w, step, t, owner);
    }
  }

  lemma {:induction false} SealedRun(w: World, steps: seq<Step>, t: nat, owner: Owner)
    requires Sealed(w, t, owner)
    ensures Sealed(Run(w, steps), t, owner)
    decreases |steps|
  {
    if steps != [] && Next(w, steps[0]).Some? {
      SealedStep(w, steps[0], t, owner);
      SealedRun(Next(w, steps[0]).value, steps[1..], t, owner);
    }
  }

  // ----- such a request: the revocation can miss its process -----------------------------------------------

  /** Revocation t waits for processes of which only these still run, and request u straggles. */
  ghost predicate Missing(w: World, t: nat, u: nat, owner: Owner, left: set<nat>) {
    && Tracked(w) && t in w.threads && u in w.threads && Straggles(w.threads[u], owner)
    && w.threads[t].RevokeWait? && w.threads[t].owner == owner
    && left <= w.table.items && forall p :: p in w.threads[t].found && p in w.table.running ==> p in left
  }

  ghost predicate Missed(w: World, t: nat, owner: Owner) {
    t in w.threads && w.threads[t] == RevokeReturned(owner) && !Gone(w.table, owner)
  }

  lemma RunOne(w: World, step: Step, rest: seq<Step>)
    requires Next(w, step).Some?
    ensures Run(w, [step] + rest) == Run(Next(w, step).value, rest)
  {
    assert ([step] + rest)[1..] == rest;
  }

  /** The listed processes end, the revocation returns, and the straggler is still there. */
  lemma {:induction false} Escape(w: World, t: nat, u: nat, owner: Owner, left: set<nat>) returns (steps: seq<Step>)
    requires Missing(w, t, u, owner, left)
    ensures Missed(Run(w, steps), t, owner)
    decreases left
  {
    if left == {} {
      steps := Return(w, t, u, owner);
    } else {
      var p :| p in left;
      ExitTracked(w, p);
      var rest := Escape(Reaped(w, p), t, u, owner, left - {p});
      steps := [Exit(p)] + rest;
      RunOne(w, Exit(p), rest);
    }
  }

  lemma Return(w: World, t: nat, u: nat, owner: Owner) returns (steps: seq<Step>)
    requires Missing(w, t, u, owner, {})
    ensures Missed(Run(w, steps), t, owner)
  {
    var step := Advance(t, true);
    assert w.threads[t].found !! w.table.running;
    var v := Next(w, step).value;
    var x := Next(v, step).value;
    StepTracked(w, step);
    StepTracked(v, step);
    var last := Launch(x, t, u, owner);
    RunOne(v, step, last);
    RunOne(w, step, [step] + last);
    steps := [step] + ([step] + last);
  }

  lemma Launch(w: World, t: nat, u: nat, owner: Owner) returns (steps: seq<Step>)
    requires Tracked(w) && t in w.threads && u in w.threads && Straggles(w.threads[u], owner)
    requires w.threads[t] == RevokeReturned(owner)
    ensures Missed(Run(w, steps), t, owner)
  {
    assert PcOk(w, u, w.threads[u]);
    if w.threads[u].RunLaunch? {
      var step := Advance(u, true);
      steps := [step];
      RunOne(w, step, []);
      assert [step] + [] == steps;
      assert Remains(Next(w, step).value.table, w.next, owner);
    } else {
      steps := [];
      var p := w.threads[u].p;
      assert Pending(w.threads[u]) == Some(p) && HeldAlone(w, u, p);
      assert Remains(w.table, p, owner);
    }
  }

  // ----- the exact condition --------------------------------------------------------------------------------

  /** However the run goes on, once revocation t has returned nothing of the owner is alive or listed. */
  ghost predicate TakesAll(w: World, t: nat, owner: Owner) {
    forall steps :: var v := Run(w, steps);
      t in v.threads && v.threads[t] == RevokeReturned(owner) ==> Gone(v.table, owner)
  }

  /** From the moment the owner is in the revoked set: when the revocation has returned, then and ever
      after no process of the owner, of either kind, is listed or alive, if and only if no exec_run of
      the owner was between its check and the listing of its process at that moment. */
  lemma RevokeTakesAllIff(before: seq<Step>, t: nat, owner: Owner)
    requires var w := Run(Begin(), before); t in w.threads && w.threads[t] == RevokeCollect(owner)
    ensures TakesAll(Run(Begin(), before), t, owner) <==> NoStraggler(Run(Begin(), before), owner)
  {
    var w := Run(Begin(), before);
    RunTrackedAll(Begin(), before);
    assert PcOk(w, t, w.threads[t]);
    if NoStraggler(w, owner) {
      forall steps | t in Run(w, steps).threads && Run(w, steps).threads[t] == RevokeReturned(owner)
        ensures Gone(Run(w, steps).table, owner)
      {
        SealedRun(w, steps, t, owner);
      }
    } else {
      var u :| u in w.threads && Straggles(w.threads[u], owner);
      var step := Advance(t, true);
      StepTracked(w, step);
      var v := Next(w, step).value;
      var rest := Escape(v, t, u, owner, v.threads[t].found);
      RunOne(w, step, rest);
      assert Missed(Run(w, [step] + rest), t, owner);
    }
  }
}
