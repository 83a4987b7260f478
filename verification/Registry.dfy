/** The in-memory registry of workspaces and its cleanup events
    (internal/workspaceregistry/registry.go, internal/workspaceregistry/config.go). */
module Registry {
  import opened StringOrder

  datatype Workspace = Workspace(id: string, root: string, readOnly: bool, expiresAt: int, deniedNames: seq<string>)

  type Table = map<string, Workspace>

  /** The event delivered to every cleanup callback when a registration ends. */
  datatype Cleanup = Cleanup(workspace: Workspace, generation: nat)

  ghost predicate Keyed(t: Table) {
    forall id :: id in t ==> t[id].id == id
  }

  /** Registrations that are gone or materially changed afterwards. */
  function Departures(before: Table, after: Table): set<string> {
    set id | id in before && (id !in after || before[id] != after[id])
  }

  /** Registrations that are new or materially changed. */
  function Arrivals(before: Table, after: Table): set<string> {
    set id | id in after && (id !in before || before[id] != after[id])
  }

  predicate ListedIn(ids: seq<string>, t: Table) {
    forall i :: 0 <= i < |ids| ==> ids[i] in t
  }

  function CleanupsFor(before: Table, ids: seq<string>, generation: nat): seq<Cleanup>
    requires ListedIn(ids, before)
  {
    seq(|ids|, i requires 0 <= i < |ids| => Cleanup(before[ids[i]], generation))
  }

  predicate Valid(accepts: Workspace -> bool, w: Workspace, now: int) {
    accepts(w) && w.expiresAt > now
  }

  function TableOf(workspaces: seq<Workspace>): Table {
    if workspaces == [] then map[]
    else TableOf(workspaces[..|workspaces| - 1])[workspaces[|workspaces| - 1].id := workspaces[|workspaces| - 1]]
  }

  /** A complete set that can be installed: every entry valid, no identifier twice. */
  ghost predicate Installable(accepts: Workspace -> bool, workspaces: seq<Workspace>, now: int) {
    && (forall i :: 0 <= i < |workspaces| ==> Valid(accepts, workspaces[i], now))
    && (forall i, j :: 0 <= i < j < |workspaces| ==> workspaces[i].id != workspaces[j].id)
  }

  lemma {:induction false} TableOfMeans(workspaces: seq<Workspace>, id: string)
    ensures id in TableOf(workspaces) <==> exists i :: 0 <= i < |workspaces| && workspaces[i].id == id
    ensures Keyed(TableOf(workspaces))
    ensures id in TableOf(workspaces) ==> TableOf(workspaces)[id] in workspaces
  {
    if workspaces != [] {
      var last := |workspaces| - 1;
      TableOfMeans(workspaces[..last], id);
      if exists i :: 0 <= i < |workspaces| && workspaces[i].id == id {
        var i :| 0 <= i < |workspaces| && workspaces[i].id == id;
        assert i < last ==> workspaces[..last][i].id == id;
      }
    }
  }

  lemma Installs(workspaces: seq<Workspace>)
    requires forall i, j :: 0 <= i < j < |workspaces| ==> workspaces[i].id != workspaces[j].id
    ensures forall id :: id in TableOf(workspaces) <==> exists i :: 0 <= i < |workspaces| && workspaces[i].id == id
    ensures forall i :: 0 <= i < |workspaces| ==>
              workspaces[i].id in TableOf(workspaces) && TableOf(workspaces)[workspaces[i].id] == workspaces[i]
  {
    forall id
      ensures id in TableOf(workspaces) <==> exists i :: 0 <= i < |workspaces| && workspaces[i].id == id
    {
      TableOfMeans(workspaces, id);
    }
    forall i | 0 <= i < |workspaces|
      ensures workspaces[i].id in TableOf(workspaces) && TableOf(workspaces)[workspaces[i].id] == workspaces[i]
    {
      TableOfMeans(workspaces, workspaces[i].id);
      var w := TableOf(workspaces)[workspaces[i].id];
      var j :| 0 <= j < |workspaces| && workspaces[j] == w;
      SameEntry(workspaces, i, j);
    }
  }

  lemma SameEntry(workspaces: seq<Workspace>, i: nat, j: nat)
    requires forall i, j :: 0 <= i < j < |workspaces| ==> workspaces[i].id != workspaces[j].id
    requires i < |workspaces| && j < |workspaces| && workspaces[i].id == workspaces[j].id
    ensures i == j
  {
  }

  function Without(t: Table, ids: set<string>): Table {
    map id | id in t && id !in ids :: t[id]
  }

  function ExpiredIds(t: Table, now: int): set<string> {
    set id | id in t && t[id].expiresAt <= now
  }

  datatype Found = Found(workspace: Workspace) | NotFound | Expired

  // ----- the five operations -------------------------------------------------------------------------

  datatype State = State(workspaces: Table, generation: nat)

  datatype Op = RegisterOp(workspace: Workspace, now: int)
              | ReplaceAllOp(list: seq<Workspace>, now: int)
              | GetOp(id: string, now: int)
              | RevokeOp(id: string)
              | SnapshotOp(now: int)

  /** The events list these registrations, in the order of their identifiers. */
  ghost predicate EventsFor(events: seq<Cleanup>, before: Table, removed: set<string>, generation: nat) {
    exists ids :: ListsEvents(events, ids, before, removed, generation)
  }

  ghost predicate ListsEvents(events: seq<Cleanup>, ids: seq<string>, before: Table, removed: set<string>,
                              generation: nat)
  {
    && Ascending(ids) && (forall id :: id in ids <==> id in removed)
    && ListedIn(ids, before) && events == CleanupsFor(before, ids, generation)
  }

  /** What one operation does to the registry and which events it delivers. */
  ghost predicate Step(accepts: Workspace -> bool, s: State, op: Op, next: State, events: seq<Cleanup>) {
    var t, bumped := s.workspaces, s.generation + 1;
    match op
    case RegisterOp(w, now) =>
      && events == []
      && next == if Valid(accepts, w, now) && w.id !in t then State(t[w.id := w], bumped) else s
    case ReplaceAllOp(list, now) =>
      if Installable(accepts, list, now)
      then next == State(TableOf(list), bumped) && EventsFor(events, t, Departures(t, TableOf(list)), bumped)
      else next == s && events == []
    case GetOp(id, now) =>
      if id in t && t[id].expiresAt <= now
      then next == State(Without(t, {id}), bumped) && events == [Cleanup(t[id], bumped)]
      else next == s && events == []
    case RevokeOp(id) =>
      if id in t then next == State(Without(t, {id}), bumped) && events == [Cleanup(t[id], bumped)]
      else next == s && events == []
    case SnapshotOp(now) =>
      var expired := ExpiredIds(t, now);
      && next == (if expired == {} then s else State(Without(t, expired), bumped))
      && EventsFor(events, t, expired, next.generation)
  }

  /** accepts stands for the checks on a workspace that do not look at the clock. */
  class WorkspaceRegistry {
    const accepts: Workspace -> bool
    var workspaces: Table
    var generation: nat

    constructor (accepts: Workspace -> bool)
      ensures this.accepts == accepts && workspaces == map[] && generation == 0
    {
      this.accepts := accepts;
      workspaces, generation := map[], 0;
    }

    function View(): State
      reads this
    {
      State(workspaces, generation)
    }

    method Register(w: Workspace, now: int) returns (ok: bool)
      modifies this
      ensures ok <==> accepts(w) && w.expiresAt > now && w.id !in old(workspaces)
      ensures if ok then workspaces == old(workspaces)[w.id := w] && generation == old(generation) + 1
              else workspaces == old(workspaces) && generation == old(generation)
      ensures Step(accepts, old(View()), RegisterOp(w, now), View(), [])
    {
      if !Valid(accepts, w, now) || w.id in workspaces {
        return false;
      }
      generation := generation + 1;
      workspaces := workspaces[w.id := w];
      return true;
    }

    /** A failed replacement changes nothing; a successful one installs exactly the given set and
        cleans up each registration that left or changed, once. */
    method ReplaceAll(list: seq<Workspace>, now: int) returns (ok: bool, events: seq<Cleanup>)
      modifies this
      ensures ok <==> (forall i :: 0 <= i < |list| ==> accepts(list[i]) && list[i].expiresAt > now)
                      && forall i, j :: 0 <= i < j < |list| ==> list[i].id != list[j].id
      ensures ok ==> forall id :: id in workspaces <==> exists i :: 0 <= i < |list| && list[i].id == id
      ensures ok ==> forall i :: 0 <= i < |list| ==> list[i].id in workspaces && workspaces[list[i].id] == list[i]
      ensures generation == old(generation) + (if ok then 1 else 0) && (!ok ==> workspaces == old(workspaces))
      ensures Step(accepts, old(View()), ReplaceAllOp(list, now), View(), events)
    {
      var next: Table;
      ok, next := BuildTable(list, now);
      if !ok {
        return false, [];
      }
      Installs(list);
      generation := generation + 1;
      var removed := Removed(workspaces, next);
      events := SortedEvents(workspaces, removed, generation);
      workspaces := next;
    }

    method BuildTable(list: seq<Workspace>, now: int) returns (ok: bool, next: Table)
      ensures ok <==> Installable(accepts, list, now)
      ensures ok ==> next == TableOf(list)
    {
      next := map[];
      for i := 0 to |list|
        invariant next == TableOf(list[..i]) && Installable(accepts, list[..i], now)
      {
        TableOfMeans(list[..i], list[i].id);
        assert list[..i + 1][..i] == list[..i];
        if !Valid(accepts, list[i], now) {
          return false, next;
        }
        if list[i].id in next {
          return false, next;
        }
        next := next[list[i].id := list[i]];
      }
      assert list[..|list|] == list;
      ok := true;
    }

    /** Looking up an expired workspace removes it, with one event. */
    method Get(id: string, now: int) returns (r: Found, events: seq<Cleanup>)
      modifies this
      ensures r == if id !in old(workspaces) then NotFound
                   else if old(workspaces)[id].expiresAt <= now then Expired else Found(old(workspaces)[id])
      ensures workspaces
                == map other | other in old(workspaces) && !(other == id && r.Expired?) :: old(workspaces)[other]
      ensures generation == old(generation) + (if r.Expired? then 1 else 0)
      ensures events == if r.Expired? then [Cleanup(old(workspaces)[id], generation)] else []
      ensures Step(accepts, old(View()), GetOp(id, now), View(), events)
    {
      events := [];
      if id !in workspaces {
        return NotFound, events;
      }
      var workspace := workspaces[id];
      if workspace.expiresAt <= now {
        workspaces := Without(workspaces, {id});
        generation := generation + 1;
        events := [Cleanup(workspace, generation)];
        return Expired, events;
      }
      return Found(workspace), events;
    }

    method Revoke(id: string) returns (ok: bool, events: seq<Cleanup>)
      modifies this
      ensures ok <==> id in old(workspaces)
      ensures workspaces == map other | other in old(workspaces) && other != id :: old(workspaces)[other]
      ensures generation == old(generation) + (if ok then 1 else 0)
      ensures events == if ok then [Cleanup(old(workspaces)[id], generation)] else []
      ensures Step(accepts, old(View()), RevokeOp(id), View(), events)
    {
      if id !in workspaces {
        return false, [];
      }
      var workspace := workspaces[id];
      workspaces := Without(workspaces, {id});
      generation := generation + 1;
      return true, [Cleanup(workspace, generation)];
    }

    /** The listing drops the expired registrations first, with one event each. */
    method Snapshot(now: int) returns (live: Table, events: seq<Cleanup>)
      modifies this
      ensures live == workspaces
                   == map id | id in old(workspaces) && old(workspaces)[id].expiresAt > now :: old(workspaces)[id]
      ensures Step(accepts, old(View()), SnapshotOp(now), View(), events)
    {
      ghost var before := workspaces;
      var expired: set<string> := {};
      var ids := workspaces.Keys;
      while ids != {}
        invariant ids <= before.Keys && workspaces == before
        invariant expired == set id | id in before && id !in ids && before[id].expiresAt <= now
        decreases |ids|
      {
        var id :| id in ids;
        if workspaces[id].expiresAt <= now {
          expired := expired + {id};
        }
        ids := ids - {id};
      }
      var next := Without(workspaces, expired);
      if expired != {} {
        generation := generation + 1;
      } else {
        assert next == before;
      }
      assert expired == ExpiredIds(before, now);
      events := SortedEvents(workspaces, expired, generation);
      workspaces := next;
      live := next;
    }
  }

  method Removed(before: Table, next: Table) returns (removed: set<string>)
    ensures removed == Departures(before, next)
  {
    removed := {};
    var ids := before.Keys;
    while ids != {}
      invariant ids <= before.Keys
      invariant removed == set id | id in Departures(before, next) && id !in ids
      decreases |ids|
    {
      var id :| id in ids;
      if id !in next || before[id] != next[id] {
        removed := removed + {id};
      }
      ids := ids - {id};
    }
  }

  method SortedEvents(before: Table, removed: set<string>, generation: nat) returns (events: seq<Cleanup>)
    requires removed <= before.Keys
    ensures EventsFor(events, before, removed, generation)
  {
    var ids := SortIds(removed);
    forall i | 0 <= i < |ids|
      ensures ids[i] in before
    {
      assert ids[i] in ids;
    }
    events := CleanupsFor(before, ids, generation);
    assert ListsEvents(events, ids, before, removed, generation);
  }

  // ----- every operation cleans up what it removes ----------------------------------------------------

  /** The events are exactly one for each departure, in the order of the identifiers. */
  ghost predicate CleansUp(events: seq<Cleanup>, s: State, next: State) {
    EventsFor(events, s.workspaces, Departures(s.workspaces, next.workspaces), next.generation)
  }

  lemma NoEvents(t: Table, generation: nat)
    ensures EventsFor([], t, {}, generation)
  {
    assert ListsEvents([], [], t, {}, generation);
  }

  lemma OneEvent(before: Table, id: string, generation: nat)
    requires id in before
    ensures EventsFor([Cleanup(before[id], generation)], before, {id}, generation)
  {
    assert ListsEvents([Cleanup(before[id], generation)], [id], before, {id}, generation);
  }

  lemma WithoutDeparts(t: Table, ids: set<string>)
    requires ids <= t.Keys
    ensures Departures(t, Without(t, ids)) == ids
  {
  }

  /** Whatever the operation: each registration it ends or changes is cleaned up once and no other is,
      the table stays keyed, and it never changes within one generation. */
  lemma StepCleansUp(accepts: Workspace -> bool, s: State, op: Op, next: State, events: seq<Cleanup>)
    requires Step(accepts, s, op, next, events) && Keyed(s.workspaces)
    ensures CleansUp(events, s, next) && Keyed(next.workspaces)
    ensures s.generation <= next.generation <= s.generation + 1
    ensures next.workspaces != s.workspaces ==> next.generation == s.generation + 1
  {
    var t := s.workspaces;
    assert Departures(t, t) == {};
    NoEvents(t, s.generation);
    NoEvents(t, next.generation);
    match op {
      case RegisterOp(w, now) => assert Departures(t, next.workspaces) == {};
      case ReplaceAllOp(list, now) => TableOfMeans(list, "");
      case GetOp(id, now) =>
        if id in t {
          OneEvent(t, id, next.generation);
          WithoutDeparts(t, {id});
        }
      case RevokeOp(id) =>
        if id in t {
          OneEvent(t, id, next.generation);
          WithoutDeparts(t, {id});
        }
      case SnapshotOp(now) => WithoutDeparts(t, ExpiredIds(t, now));
    }
  }

  // ----- what the events add up to -------------------------------------------------------------------

  /** How many of the events are about a workspace. */
  function CountFor(events: seq<Cleanup>, id: string): nat {
    if events == [] then 0 else CountFor(events[1..], id) + (if events[0].workspace.id == id then 1 else 0)
  }

  lemma {:induction false} CountAbsent(events: seq<Cleanup>, id: string)
    requires forall i :: 0 <= i < |events| ==> events[i].workspace.id != id
    ensures CountFor(events, id) == 0
  {
    if events != [] {
      CountAbsent(events[1..], id);
    }
  }

  lemma {:induction false} CountOnce(events: seq<Cleanup>, id: string, k: nat)
    requires k < |events| && events[k].workspace.id == id
    requires forall i :: 0 <= i < |events| && i != k ==> events[i].workspace.id != id
    ensures CountFor(events, id) == 1
  {
    if k == 0 {
      CountAbsent(events[1..], id);
    } else {
      CountOnce(events[1..], id, k - 1);
    }
  }

  /** Exactly one event per removed registration, none for any other workspace. */
  lemma OneEventEach(events: seq<Cleanup>, before: Table, removed: set<string>, generation: nat, id: string)
    requires Keyed(before) && EventsFor(events, before, removed, generation)
    ensures CountFor(events, id) == if id in removed then 1 else 0
  {
    var ids :| ListsEvents(events, ids, before, removed, generation);
    assert forall i :: 0 <= i < |events| ==> events[i].workspace.id == ids[i];
    if id in removed {
      var k :| 0 <= k < |ids| && ids[k] == id;
      forall i | 0 <= i < |events| && i != k
        ensures events[i].workspace.id != id
      {
        LessTrichotomy(ids[i], ids[k]);
      }
      CountOnce(events, id, k);
    } else {
      forall i | 0 <= i < |events|
        ensures events[i].workspace.id != id
      {
        assert ids[i] in ids;
      }
      CountAbsent(events, id);
    }
  }

  /** A run of operations from the empty registry, with the events of each. */
  ghost predicate Run(accepts: Workspace -> bool, ops: seq<Op>, states: seq<State>, events: seq<seq<Cleanup>>) {
    && |states| == |ops| + 1 == |events| + 1 && states[0] == State(map[], 0)
    && forall n :: 0 <= n < |ops| ==> StepAt(accepts, ops, states, events, n)
  }

  ghost predicate StepAt(accepts: Workspace -> bool, ops: seq<Op>, states: seq<State>, events: seq<seq<Cleanup>>,
                         n: nat)
    requires n < |ops| < |states| && n < |events|
  {
    Step(accepts, states[n], ops[n], states[n + 1], events[n])
  }

  function Arrived(states: seq<State>, id: string, n: nat): nat
    requires n < |states|
  {
    if n == 0 then 0
    else Arrived(states, id, n - 1)
         + (if id in Arrivals(states[n - 1].workspaces, states[n].workspaces) then 1 else 0)
  }

  function CleanedUp(events: seq<seq<Cleanup>>, id: string, n: nat): nat
    requires n <= |events|
  {
    if n == 0 then 0 else CleanedUp(events, id, n - 1) + CountFor(events[n - 1], id)
  }

  /** Over every run of the five operations, a workspace has been registered as often as it has been
      cleaned up, plus once if it is registered now. */
  lemma {:induction false} Conservation(accepts: Workspace -> bool, ops: seq<Op>, states: seq<State>,
                                        events: seq<seq<Cleanup>>, id: string, n: nat)
    requires Run(accepts, ops, states, events) && n <= |ops|
    ensures Arrived(states, id, n) == CleanedUp(events, id, n) + (if id in states[n].workspaces then 1 else 0)
    ensures Keyed(states[n].workspaces)
  {
    if n > 0 {
      var s, next := states[n - 1], states[n];
      Conservation(accepts, ops, states, events, id, n - 1);
      assert StepAt(accepts, ops, states, events, n - 1);
      StepCleansUp(accepts, s, ops[n - 1], next, events[n - 1]);
      OneEventEach(events[n - 1], s.workspaces, Departures(s.workspaces, next.workspaces), next.generation, id);
    }
  }
}
