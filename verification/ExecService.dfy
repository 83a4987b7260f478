/** What the exec supervisor's requests do when nothing disturbs them
    (internal/execworker/server.go, internal/execworker/backend_linux.go). */
module ExecService {
  import opened Basics
  import opened ExecTable
  import opened ExecSupervisor

  // ----- chaining steps ----------------------------------------------------------------------

  /** These steps are all made and lead from w to v. */
  ghost predicate Leads(w: World, steps: seq<Step>, v: World) {
    forall rest :: Run(w, steps + rest) == Run(v, rest)
  }

  lemma LeadsOne(w: World, step: Step, v: World)
    requires Next(w, step) == Some(v)
    ensures Leads(w, [step], v)
  {
    forall rest
      ensures Run(w, [step] + rest) == Run(v, rest)
    {
      assert ([step] + rest)[1..] == rest;
    }
  }

  lemma LeadsOn(w: World, a: seq<Step>, v: World, b: seq<Step>, x: World)
    requires Leads(w, a, v) && Leads(v, b, x)
    ensures Leads(w, a + b, x)
  {
    forall rest
      ensures Run(w, (a + b) + rest) == Run(x, rest)
    {
      Associate(a, b, rest);
    }
  }

  lemma LeadsNext(w: World, a: seq<Step>, v: World, step: Step, x: World)
    requires Leads(w, a, v) && Next(v, step) == Some(x)
    ensures Leads(w, a + [step], x)
  {
    LeadsOne(v, step, x);
    LeadsOn(w, a, v, [step], x);
  }

  lemma LeadsEnds(w: World, steps: seq<Step>, v: World)
    requires Leads(w, steps, v)
    ensures Run(w, steps) == v
  {
    assert steps + [] == steps;
    assert Run(w, steps + []) == Run(v, []);
  }

  lemma LeadsNothing(w: World)
    ensures Leads(w, [], w)
  {
    forall rest
      ensures Run(w, [] + rest) == Run(w, rest)
    {
      assert [] + rest == rest;
    }
  }

  /** Listed processes end one by one. */
  lemma {:induction false} ExitAll(w: World, left: set<nat>) returns (steps: seq<Step>)
    requires left <= w.table.items
    ensures Leads(w, steps, w.(table := w.table.(running := w.table.running - left)))
    decreases left
  {
    if left == {} {
      steps := [];
      LeadsNothing(w);
      assert w.table.running - left == w.table.running;
    } else {
      var p :| p in left;
      var v := Reaped(w, p);
      LeadsOne(w, Exit(p), v);
      var rest := ExitAll(v, left - {p});
      assert v.table.running - (left - {p}) == w.table.running - left;
      LeadsOn(w, [Exit(p)], v, rest, w.(table := w.table.(running := w.table.running - left)));
      steps := [Exit(p)] + rest;
    }
  }

  /** The next number names no thread and no process yet. */
  lemma Unused(w: World)
    requires Inv(w)
    ensures w.next !in w.threads && w.next + 1 !in w.table.items && w.next + 1 !in w.table.running
  {
  }

  /** A new request's thread. */
  function Arrived(w: World, pc: Pc): World {
    Goto(w, w.next, pc).(next := w.next + 1)
  }

  // ----- process_start ------------------------------------------------------------------------

  /** Undisturbed, process_start of an owner that is not revoked starts and lists one process of that
      owner, unless the table is closed: then it is killed again.  A revoked owner's starts nothing. */
  lemma StartServes(w: World, owner: Owner) returns (steps: seq<Step>)
    requires Inv(w) && w.executionMu.None?
    ensures var v, t, p := Run(w, steps), w.next, w.next + 1;
            && t in v.threads && v.threads[t] == Returned && v.executionMu.None? && v.revoked == w.revoked
            && v.table.closed == w.table.closed
            && (if owner in w.revoked then v.table == w.table
                else && p in v.table.records && v.table.records[p] == Record(owner, StartTask)
                     && v.table.items == (if w.table.closed then w.table.items else w.table.items + {p})
                     && v.table.running == (if w.table.closed then w.table.running else w.table.running + {p}))
  {
    Unused(w);
    var t := w.next;
    var w1 := Arrived(w, StartEntry(owner));
    steps := [Arrive(StartEntry(owner))];
    LeadsOne(w, Arrive(StartEntry(owner)), w1);
    if owner in w.revoked {
      var w2 := Goto(w1, t, Returned);
      LeadsNext(w, steps, w1, Advance(t, true), w2);
      steps := steps + [Advance(t, true)];
      LeadsEnds(w, steps, w2);
    } else {
      var w2 := Goto(w1.(executionMu := Some(t)), t, StartLaunch(owner));
      LeadsNext(w, steps, w1, Advance(t, true), w2);
      var rest := StartHeld(w2, t, owner);
      LeadsOn(w, steps + [Advance(t, true)], w2, rest, StartDone(w2, t, owner));
      steps := steps + [Advance(t, true)] + rest;
      LeadsEnds(w, steps, StartDone(w2, t, owner));
    }
  }

  /** The world after a start that holds the mutex has finished. */
  function StartDone(w: World, t: nat, owner: Owner): World {
    var launched := Launched(w, owner, StartTask);
    var listed := launched.(table := Inserted(launched.table, w.next));
    Goto((if w.table.closed then Reaped(listed, w.next) else listed).(executionMu := None), t, Returned)
  }

  lemma StartHeld(w: World, t: nat, owner: Owner) returns (steps: seq<Step>)
    requires t in w.threads && w.threads[t] == StartLaunch(owner)
    ensures Leads(w, steps, StartDone(w, t, owner))
  {
    var p := w.next;
    var launched := Goto(Launched(w, owner, StartTask), t, StartInsert(owner, p));
    LeadsOne(w, Advance(t, true), launched);
    var listed := Goto(launched.(table := Inserted(launched.table, p)), t,
                       if w.table.closed then StartReap(owner, p) else StartUnlock(owner));
    LeadsNext(w, [Advance(t, true)], launched, Advance(t, true), listed);
    steps := [Advance(t, true)] + [Advance(t, true)];
    if w.table.closed {
      var reaped := Goto(Reaped(listed, p), t, StartUnlock(owner));
      LeadsNext(w, steps, listed, Advance(t, true), reaped);
      steps := steps + [Advance(t, true)];
      assert Next(reaped, Advance(t, true)).value.threads == StartDone(w, t, owner).threads;
      LeadsNext(w, steps, reaped, Advance(t, true), StartDone(w, t, owner));
    } else {
      assert Next(listed, Advance(t, true)).value.threads == StartDone(w, t, owner).threads;
      LeadsNext(w, steps, listed, Advance(t, true), StartDone(w, t, owner));
    }
    steps := steps + [Advance(t, true)];
  }

  // ----- exec_run -------------------------------------------------------------------------------

  /** The world while an exec_run waits for its listed process. */
  function RunListed(w: World, owner: Owner): World {
    var launched := Launched(Arrived(w, RunEntry(owner)), owner, RunTask);
    Goto(launched.(table := Inserted(launched.table, w.next + 1)), w.next, RunWait(owner, w.next + 1))
  }

  /** Undisturbed, exec_run of an owner that is not revoked, on an open table, lists one running process of
      that owner; when the process ends, it takes it out and returns. */
  lemma RunServes(w: World, owner: Owner) returns (launching: seq<Step>, ending: seq<Step>)
    requires Inv(w) && w.executionMu.None? && owner !in w.revoked && !w.table.closed
    ensures var v, p := Run(w, launching), w.next + 1;
            && v == RunListed(w, owner)
            && p in v.table.records && v.table.records[p] == Record(owner, RunTask)
            && v.table.items == w.table.items + {p} && v.table.running == w.table.running + {p}
    ensures var v, t := Run(RunListed(w, owner), ending), w.next;
            && t in v.threads && v.threads[t] == Returned
            && v.table.items == w.table.items && v.table.running == w.table.running
  {
    Unused(w);
    launching := RunLists(w, owner);
    ending := RunEnds(RunListed(w, owner), w.next, owner, w.next + 1);
  }

  lemma RunLists(w: World, owner: Owner) returns (steps: seq<Step>)
    requires w.executionMu.None? && w.next !in w.threads && owner !in w.revoked && !w.table.closed
    ensures Run(w, steps) == RunListed(w, owner)
  {
    var t, p := w.next, w.next + 1;
    var w1 := Arrived(w, RunEntry(owner));
    var w2 := Goto(w1, t, RunLaunch(owner));
    var w3 := Goto(Launched(w2, owner, RunTask), t, RunInsert(owner, p));
    var step := Advance(t, true);
    LeadsOne(w, Arrive(RunEntry(owner)), w1);
    LeadsNext(w, [Arrive(RunEntry(owner))], w1, step, w2);
    LeadsNext(w, [Arrive(RunEntry(owner))] + [step], w2, step, w3);
    assert Next(w3, step).value.threads == RunListed(w, owner).threads;
    LeadsNext(w, [Arrive(RunEntry(owner))] + [step] + [step], w3, step, RunListed(w, owner));
    steps := [Arrive(RunEntry(owner))] + [step] + [step] + [step];
    LeadsEnds(w, steps, RunListed(w, owner));
  }

  lemma RunEnds(w: World, t: nat, owner: Owner, p: nat) returns (steps: seq<Step>)
    requires t in w.threads && w.threads[t] == RunWait(owner, p) && p in w.table.items
    ensures var v := Run(w, steps);
            && t in v.threads && v.threads[t] == Returned
            && v.table.items == w.table.items - {p} && v.table.running == w.table.running - {p}
  {
    var w1 := Reaped(w, p);
    var w2 := Goto(w1, t, RunRemove(owner, p));
    var w3 := Goto(w2.(table := w2.table.(items := w2.table.items - {p})), t, Returned);
    var step := Advance(t, true);
    LeadsOne(w, Exit(p), w1);
    LeadsNext(w, [Exit(p)], w1, step, w2);
    LeadsNext(w, [Exit(p)] + [step], w2, step, w3);
    steps := [Exit(p)] + [step] + [step];
    LeadsEnds(w, steps, w3);
  }

  // ----- session_revoke and shutdown ---------------------------------------------------------------

  /** The records of every owner but one. */
  function Others(t: Table, owner: Owner): set<nat> {
    set p | p in t.items && !(p in t.records && t.records[p].owner == owner)
  }

  /** Undisturbed, session_revoke returns once the owner's listed processes have ended; it revokes the owner,
      takes exactly its records out of the table, and leaves every other process alone. */
  lemma RevokeServes(w: World, owner: Owner) returns (steps: seq<Step>)
    requires Inv(w) && w.executionMu.None?
    ensures var v, t := Run(w, steps), w.next;
            && t in v.threads && v.threads[t] == RevokeReturned(owner) && v.revoked == w.revoked + {owner}
            && v.table.items == Others(w.table, owner)
            && v.table.running == w.table.running - OwnedItems(w.table, owner)
            && v.table.records == w.table.records && v.table.closed == w.table.closed
  {
    Unused(w);
    var t, found := w.next, OwnedItems(w.table, owner);
    var step := Advance(t, true);
    var w1 := Arrived(w, RevokeEntry(owner));
    var w2 := Goto(w1.(revoked := w1.revoked + {owner}), t, RevokeCollect(owner));
    var w3 := Goto(w2, t, RevokeWait(owner, found));
    LeadsOne(w, Arrive(RevokeEntry(owner)), w1);
    LeadsNext(w, [Arrive(RevokeEntry(owner))], w1, step, w2);
    LeadsNext(w, [Arrive(RevokeEntry(owner))] + [step], w2, step, w3);
    var before := [Arrive(RevokeEntry(owner))] + [step] + [step];
    var rest := RevokeWaits(w3, t, owner, found);
    LeadsOn(w, before, w3, rest, RevokeDone(w3, t, owner, found));
    steps := before + rest;
    LeadsEnds(w, steps, RevokeDone(w3, t, owner, found));
    assert w.table.items - found == Others(w.table, owner);
  }

  function RevokeDone(w: World, t: nat, owner: Owner, found: set<nat>): World {
    Goto(w.(table := w.table.(running := w.table.running - found, items := w.table.items - found)), t,
         RevokeReturned(owner))
  }

  lemma RevokeWaits(w: World, t: nat, owner: Owner, found: set<nat>) returns (steps: seq<Step>)
    requires t in w.threads && w.threads[t] == RevokeWait(owner, found) && found <= w.table.items
    ensures Leads(w, steps, RevokeDone(w, t, owner, found))
  {
    var step := Advance(t, true);
    var exits := ExitAll(w, found);
    var w1 := w.(table := w.table.(running := w.table.running - found));
    var w2 := Goto(w1, t, RevokeRemove(owner, found));
    LeadsNext(w, exits, w1, step, w2);
    assert Next(w2, step).value.threads == RevokeDone(w, t, owner, found).threads;
    LeadsNext(w, exits + [step], w2, step, RevokeDone(w, t, owner, found));
    steps := exits + [step] + [step];
  }

  /** Undisturbed, the first close returns once the running listed processes have ended, with the table closed
      and everything still listed. */
  lemma CloseServes(w: World) returns (steps: seq<Step>)
    requires Inv(w) && !w.table.closed
    ensures var v, t := Run(w, steps), w.next;
            && t in v.threads && v.threads[t] == CloseReturned(true)
            && v.table == w.table.(closed := true, running := w.table.running - w.table.items)
            && v.revoked == w.revoked
  {
    Unused(w);
    var t, found := w.next, RunningItems(w.table);
    var step := Advance(t, true);
    var w1 := Arrived(w, CloseEntry);
    var w2 := Goto(w1.(table := w1.table.(closed := true)), t, CloseWait(found));
    LeadsOne(w, Arrive(CloseEntry), w1);
    LeadsNext(w, [Arrive(CloseEntry)], w1, step, w2);
    var exits := ExitAll(w2, found);
    var w3 := w2.(table := w2.table.(running := w2.table.running - found));
    var w4 := Goto(w3, t, CloseReturned(true));
    LeadsOn(w, [Arrive(CloseEntry)] + [step], w2, exits, w3);
    LeadsNext(w, [Arrive(CloseEntry)] + [step] + exits, w3, step, w4);
    steps := [Arrive(CloseEntry)] + [step] + exits + [step];
    LeadsEnds(w, steps, w4);
    assert w.table.running - found == w.table.running - w.table.items;
  }
}
