/** The workspace router: handlers, expiries and the registry changed together under one lock
    (internal/gateway/workspace_router.go).  Each method is one critical section of that lock, so
    what it ensures holds at every release. */
module Router {
  import opened Registry

  /** A server is named by a number; a binding may lack one. */
  datatype Handler = NoHandler | Handler(server: nat)

  datatype Binding = Binding(workspace: Workspace, handler: Handler)

  type Handlers = map<string, nat>

  /** The servers bound to some of the identifiers. */
  function Servers(handlers: Handlers, ids: set<string>): set<nat> {
    set id | id in ids && id in handlers :: handlers[id]
  }

  function Unbind(handlers: Handlers, ids: set<string>): Handlers {
    map id | id in handlers && id !in ids :: handlers[id]
  }

  function Expiries(t: Table): map<string, int> {
    map id | id in t :: t[id].expiresAt
  }

  function DropExpiry(expires: map<string, int>, id: string): map<string, int> {
    map other | other in expires && other != id :: expires[other]
  }

  lemma ExpiriesDrop(t: Table, id: string)
    ensures DropExpiry(Expiries(t), id) == Expiries(Without(t, {id}))
    ensures Without(t, {id}).Keys == t.Keys - {id}
  {
  }

  /** Identifiers whose server is not the one bound to them before. */
  function Rebound(before: Handlers, after: Handlers): set<string> {
    set id | id in before && (id !in after || after[id] != before[id])
  }

  /** Bindings that can be installed as far as the router itself checks. */
  ghost predicate Distinct(bindings: seq<Binding>) {
    && (forall i :: 0 <= i < |bindings| ==> bindings[i].handler.Handler?)
    && (forall i, j :: 0 <= i < j < |bindings| ==> bindings[i].workspace.id != bindings[j].workspace.id)
  }

  function Workspaces(bindings: seq<Binding>): seq<Workspace> {
    seq(|bindings|, i requires 0 <= i < |bindings| => bindings[i].workspace)
  }

  function HandlersOf(bindings: seq<Binding>): Handlers {
    if bindings == [] then map[]
    else
      var last := bindings[|bindings| - 1];
      var before := HandlersOf(bindings[..|bindings| - 1]);
      if last.handler.Handler? then before[last.workspace.id := last.handler.server] else before
  }

  lemma {:induction false} HandlersOfKeys(bindings: seq<Binding>)
    requires forall i :: 0 <= i < |bindings| ==> bindings[i].handler.Handler?
    ensures HandlersOf(bindings).Keys == TableOf(Workspaces(bindings)).Keys
    ensures forall id :: id in HandlersOf(bindings)
                         <==> exists i :: 0 <= i < |bindings| && bindings[i].workspace.id == id
  {
    if bindings != [] {
      var n := |bindings| - 1;
      HandlersOfKeys(bindings[..n]);
      assert Workspaces(bindings)[..n] == Workspaces(bindings[..n]);
      assert bindings == bindings[..n] + [bindings[n]];
    }
  }

  lemma {:induction false} HandlersOfMeans(bindings: seq<Binding>, k: nat)
    requires k < |bindings| && Distinct(bindings)
    ensures bindings[k].workspace.id in HandlersOf(bindings)
    ensures HandlersOf(bindings)[bindings[k].workspace.id] == bindings[k].handler.server
  {
    var n := |bindings| - 1;
    if k < n {
      HandlersOfMeans(bindings[..n], k);
    }
  }

  /** Distinct bindings bind each workspace's identifier to its server and to itself. */
  lemma BindsEach(bindings: seq<Binding>)
    requires Distinct(bindings)
    ensures forall i :: 0 <= i < |bindings| ==>
              var id := bindings[i].workspace.id;
              && id in HandlersOf(bindings) && HandlersOf(bindings)[id] == bindings[i].handler.server
              && id in TableOf(Workspaces(bindings)) && TableOf(Workspaces(bindings))[id] == bindings[i].workspace
  {
    var workspaces := Workspaces(bindings);
    forall i | 0 <= i < |bindings|
      ensures var id := bindings[i].workspace.id;
              id in HandlersOf(bindings) && HandlersOf(bindings)[id] == bindings[i].handler.server
    {
      HandlersOfMeans(bindings, i);
    }
    Installs(workspaces);
    assert forall i :: 0 <= i < |bindings| ==> workspaces[i] == bindings[i].workspace;
  }

  /** What is routed, which servers have been revoked, and which were ever installed. */
  datatype Routing = Routing(handlers: Handlers, revoked: set<nat>, installed: set<nat>)

  datatype Change = Removal(gone: set<string>) | Replacement(after: Handlers)

  function Changed(s: Routing, change: Change): Routing {
    match change
    case Removal(gone) =>
      s.(handlers := Unbind(s.handlers, gone), revoked := s.revoked + Servers(s.handlers, gone))
    case Replacement(after) =>
      Routing(after, s.revoked + Servers(s.handlers, Rebound(s.handlers, after)), s.installed + after.Values)
  }

  class WorkspaceRouter {
    const registry: WorkspaceRegistry
    var handlers: Handlers
    var expires: map<string, int>
    var closed: bool
    var revoked: set<nat>
    ghost var installed: set<nat>

    ghost function View(): Routing
      reads this
    {
      Routing(handlers, revoked, installed)
    }

    /** The three structures name the same workspaces with the same expiries, and every server ever
        installed is still routed or has been revoked. */
    ghost predicate Agree()
      reads this, registry
    {
      && Keyed(registry.workspaces)
      && handlers.Keys == registry.workspaces.Keys
      && expires == Expiries(registry.workspaces)
      && installed <= handlers.Values + revoked
      && (closed ==> handlers == map[])
    }

    constructor (accepts: Workspace -> bool)
      ensures Agree() && fresh(registry) && registry.accepts == accepts
      ensures !closed && handlers == map[] && revoked == {} && installed == {}
    {
      registry := new WorkspaceRegistry(accepts);
      handlers, expires, closed, revoked, installed := map[], map[], false, {}, {};
    }

    /** The lookup of a request: the server of a live workspace.  An expired workspace leaves all
        three structures and its server is revoked before anything else can happen. */
    method Lookup(id: string, now: int) returns (r: Handler)
      requires Agree()
      modifies this, registry
      ensures Agree() && installed == old(installed) && closed == old(closed)
      ensures r == if id in old(handlers) && old(expires)[id] > now then Handler(old(handlers)[id]) else NoHandler
      ensures var gone := if id in old(expires) && old(expires)[id] <= now then {id} else {};
              && Gone(gone, old(handlers), old(registry.workspaces), old(revoked))
              && View() == Changed(old(View()), Removal(gone))
    {
      ghost var before := registry.workspaces;
      if closed {
        NothingGone(handlers, registry.workspaces);
        return NoHandler;
      }
      var found, events := registry.Get(id, now);
      if !found.Found? || id !in handlers {
        if id in handlers {
          ExpiriesDrop(before, id);
          Drop(id);
        } else {
          NothingGone(handlers, registry.workspaces);
        }
        return NoHandler;
      }
      NothingGone(handlers, registry.workspaces);
      return Handler(handlers[id]);
    }

    /** Forgetting one identifier and revoking its server. */
    method Drop(id: string)
      requires id in handlers && installed <= handlers.Values + revoked
      modifies `handlers, `expires, `revoked
      ensures handlers == Unbind(old(handlers), {id}) && expires == DropExpiry(old(expires), id)
      ensures revoked == old(revoked) + {old(handlers)[id]} == old(revoked) + Servers(old(handlers), {id})
      ensures installed <= handlers.Values + revoked
    {
      var server := handlers[id];
      handlers := Unbind(handlers, {id});
      expires := DropExpiry(expires, id);
      revoked := revoked + {server};
      InstalledKept(old(handlers), handlers, {id});
    }

    /** What removing workspaces leaves, and which servers it revokes. */
    ghost predicate Gone(gone: set<string>, before: Handlers, table: Table, revokedBefore: set<nat>)
      reads this, registry
    {
      && handlers == Unbind(before, gone)
      && registry.workspaces == Without(table, gone)
      && revoked == revokedBefore + Servers(before, gone)
    }

    method Revoke(id: string) returns (ok: bool)
      requires Agree()
      modifies this, registry
      ensures Agree() && installed == old(installed) && closed == old(closed)
      ensures ok <==> !closed && id in old(handlers)
      ensures Gone(if ok then {id} else {}, old(handlers), old(registry.workspaces), old(revoked))
      ensures View() == Changed(old(View()), Removal(if ok then {id} else {}))
    {
      if closed {
        NothingGone(handlers, registry.workspaces);
        return false;
      }
      var events;
      ok, events := registry.Revoke(id);
      if !ok {
        assert Without(old(registry.workspaces), {id}) == old(registry.workspaces);
        NothingGone(handlers, old(registry.workspaces));
        return false;
      }
      ExpiriesDrop(old(registry.workspaces), id);
      Drop(id);
    }

    /** A failed replacement changes nothing.  A successful one installs exactly the given bindings and
        revokes the server of every identifier that lost it. */
    method ReplaceAll(bindings: seq<Binding>, now: int) returns (ok: bool)
      requires Agree()
      modifies this, registry
      ensures Agree() && closed == old(closed)
      ensures ok <==> !closed && Distinct(bindings) && Installable(registry.accepts, Workspaces(bindings), now)
      ensures !ok ==> && handlers == old(handlers) && expires == old(expires) && revoked == old(revoked)
                      && installed == old(installed) && registry.workspaces == old(registry.workspaces)
                      && registry.generation == old(registry.generation)
      ensures ok ==> && handlers == HandlersOf(bindings)
                     && registry.workspaces == TableOf(Workspaces(bindings))
                     && installed == old(installed) + handlers.Values
                     && revoked == old(revoked) + Servers(old(handlers), Rebound(old(handlers), handlers))
      ensures ok ==> View() == Changed(old(View()), Replacement(HandlersOf(bindings)))
      ensures ok ==> forall id :: id in handlers <==> exists i :: 0 <= i < |bindings| && bindings[i].workspace.id == id
      ensures ok ==> forall i :: 0 <= i < |bindings| ==>
                && bindings[i].workspace.id in handlers && bindings[i].workspace.id in registry.workspaces
                && handlers[bindings[i].workspace.id] == bindings[i].handler.server
                && registry.workspaces[bindings[i].workspace.id] == bindings[i].workspace
    {
      var next, nextExpiries;
      ok, next, nextExpiries := Collect(bindings);
      if !ok || closed {
        return false;
      }
      var events;
      ok, events := registry.ReplaceAll(Workspaces(bindings), now);
      if !ok {
        return false;
      }
      TableOfMeans(Workspaces(bindings), "");
      BindsEach(bindings);
      HandlersOfKeys(bindings);
      var before := handlers;
      handlers := next;
      expires := nextExpiries;
      installed := installed + next.Values;
      var lost := Rebound(before, next);
      revoked := RevokeAll(before, lost, revoked);
      ReboundKept(before, next);
    }

    /** Closing revokes everything that is routed and leaves all three structures empty. */
    method Close(now: int)
      requires Agree()
      modifies this, registry
      ensures Agree() && closed && installed == old(installed)
      ensures !old(closed) ==> && handlers == map[] && registry.workspaces == map[]
                               && revoked == old(revoked) + old(handlers).Values
      ensures old(closed) ==> revoked == old(revoked)
      ensures View() == Changed(old(View()), Removal(old(handlers).Keys))
    {
      if closed {
        return;
      }
      closed := true;
      var before := handlers;
      handlers := map[];
      expires := map[];
      var ok, events := registry.ReplaceAll([], now);
      revoked := RevokeAll(before, before.Keys, revoked);
      AllServers(before);
    }

    /** One pass of the expiry loop: exactly the expired workspaces go, their servers are revoked, and
        the next wake-up is the earliest expiry left. */
    method ExpirePass(now: int) returns (wake: bool, next: int)
      requires Agree()
      modifies this, registry
      ensures Agree() && installed == old(installed) && closed == old(closed)
      ensures forall id :: id in registry.workspaces <==>
                id in old(registry.workspaces) && (closed || old(registry.workspaces)[id].expiresAt > now)
      ensures var gone := if closed then {} else ExpiredIds(old(registry.workspaces), now);
              && Gone(gone, old(handlers), old(registry.workspaces), old(revoked))
              && View() == Changed(old(View()), Removal(gone))
      ensures !closed ==> (wake <==> expires != map[])
      ensures !closed && wake ==> next in expires.Values && forall id :: id in expires ==> now < next <= expires[id]
    {
      wake, next := false, 0;
      if closed {
        NothingGone(handlers, registry.workspaces);
        return;
      }
      wake, next := ExpireOpen(now);
    }

    method ExpireOpen(now: int) returns (wake: bool, next: int)
      requires Agree() && !closed
      modifies this, registry
      ensures Agree() && installed == old(installed) && !closed
      ensures Gone(ExpiredIds(old(registry.workspaces), now), old(handlers), old(registry.workspaces), old(revoked))
      ensures wake <==> expires != map[]
      ensures wake ==> next in expires.Values && forall id :: id in expires ==> now < next <= expires[id]
    {
      wake, next := false, 0;
      ghost var table, bound := registry.workspaces, handlers;
      ghost var seen: set<string> := {};
      NothingGone(handlers, registry.workspaces);
      assert ExpiredAmong(table, seen, now) == {};
      var ids := expires.Keys;
      while ids != {}
        invariant Agree() && installed == old(installed) && !closed
        invariant Parts(ids, seen, table.Keys)
        invariant Gone(ExpiredAmong(table, seen, now), bound, table, old(revoked))
        invariant Earliest(table, seen, now, wake, next)
        decreases |ids|
      {
        var id :| id in ids;
        ExpiredMore(table, seen, id, now);
        EarliestMore(table, seen, id, now, wake, next);
        if expires[id] <= now {
          ExpireOne(id, ExpiredAmong(table, seen, now), bound, table, old(revoked));
        } else if !wake || expires[id] < next {
          wake, next := true, expires[id];
        }
        MoveOne(ids, seen, id, table.Keys);
        ids := ids - {id};
        seen := seen + {id};
      }
      AllSeen(ids, seen, table, now);
      EarliestLeft(table, now, wake, next);
    }

    method ExpireOne(id: string, ghost gone: set<string>, ghost bound: Handlers, ghost table: Table,
                     ghost revokedBefore: set<nat>)
      requires Agree() && !closed && id in handlers && Gone(gone, bound, table, revokedBefore)
      modifies this, registry
      ensures Agree() && !closed && installed == old(installed)
      ensures Gone(gone + {id}, bound, table, revokedBefore)
    {
      ExpiriesDrop(registry.workspaces, id);
      GoneMore(bound, table, gone, id);
      var ok, events := registry.Revoke(id);
      Drop(id);
    }
  }

  lemma AllSeen(ids: set<string>, seen: set<string>, t: Table, now: int)
    requires ids == {} && Parts(ids, seen, t.Keys)
    ensures seen == t.Keys && ExpiredAmong(t, seen, now) == ExpiredIds(t, now)
  {
  }

  ghost predicate Parts(ids: set<string>, seen: set<string>, all: set<string>) {
    ids * seen == {} && ids + seen == all
  }

  lemma MoveOne(ids: set<string>, seen: set<string>, id: string, all: set<string>)
    requires Parts(ids, seen, all) && id in ids
    ensures Parts(ids - {id}, seen + {id}, all)
  {
  }

  function ExpiredAmong(t: Table, ids: set<string>, now: int): set<string> {
    set id | id in ids && id in t && t[id].expiresAt <= now
  }

  lemma ExpiredMore(t: Table, ids: set<string>, id: string, now: int)
    requires id in t
    ensures ExpiredAmong(t, ids + {id}, now)
              == if t[id].expiresAt <= now then ExpiredAmong(t, ids, now) + {id} else ExpiredAmong(t, ids, now)
  {
  }

  /** next is the earliest expiry in the future among ids, if there is one. */
  ghost predicate Earliest(t: Table, ids: set<string>, now: int, wake: bool, next: int) {
    && (wake ==> exists id :: id in ids && id in t && t[id].expiresAt == next > now)
    && (forall id :: id in ids && id in t && t[id].expiresAt > now ==> wake && next <= t[id].expiresAt)
  }

  lemma EarliestMore(t: Table, ids: set<string>, id: string, now: int, wake: bool, next: int)
    requires id in t && Earliest(t, ids, now, wake, next)
    ensures if t[id].expiresAt > now && (!wake || t[id].expiresAt < next)
            then Earliest(t, ids + {id}, now, true, t[id].expiresAt)
            else Earliest(t, ids + {id}, now, wake, next)
  {
    if wake {
      var other :| other in ids && other in t && t[other].expiresAt == next > now;
      assert other in ids + {id};
    }
    assert id in ids + {id};
  }

  lemma EarliestLeft(t: Table, now: int, wake: bool, next: int)
    requires Earliest(t, t.Keys, now, wake, next)
    ensures var left := Expiries(Without(t, ExpiredIds(t, now)));
            && (wake <==> left != map[])
            && (wake ==> next in left.Values && forall id :: id in left ==> now < next <= left[id])
  {
    var left := Expiries(Without(t, ExpiredIds(t, now)));
    if wake {
      var id :| id in t && t[id].expiresAt == next > now;
      assert id in left && left[id] == next;
    }
    if left != map[] {
      var id :| id in left;
      assert id in t && t[id].expiresAt > now;
    }
  }

  /** Handlers and expiries of a set of bindings, refusing a missing handler or a repeated identifier. */
  method Collect(bindings: seq<Binding>) returns (ok: bool, handlers: Handlers, expires: map<string, int>)
    ensures ok <==> Distinct(bindings)
    ensures ok ==> handlers == HandlersOf(bindings) && expires == Expiries(TableOf(Workspaces(bindings)))
  {
    handlers, expires := map[], map[];
    for i := 0 to |bindings|
      invariant Distinct(bindings[..i])
      invariant handlers == HandlersOf(bindings[..i])
      invariant expires == Expiries(TableOf(Workspaces(bindings[..i])))
    {
      var b := bindings[i];
      DistinctNext(bindings, i);
      if b.handler.NoHandler? {
        return false, handlers, expires;
      }
      if b.workspace.id in handlers {
        return false, handlers, expires;
      }
      CollectNext(bindings, i);
      handlers := handlers[b.workspace.id := b.handler.server];
      expires := expires[b.workspace.id := b.workspace.expiresAt];
    }
    assert bindings[..|bindings|] == bindings;
    ok := true;
  }

  /** The next binding keeps a set of bindings distinct if it has a handler and a new identifier. */
  lemma DistinctNext(bindings: seq<Binding>, i: nat)
    requires i < |bindings| && Distinct(bindings[..i])
    ensures bindings[i].handler.Handler? && bindings[i].workspace.id !in HandlersOf(bindings[..i])
            <==> Distinct(bindings[..i + 1])
    ensures Distinct(bindings) ==> Distinct(bindings[..i + 1])
  {
    HandlersOfKeys(bindings[..i]);
    var before, next := bindings[..i], bindings[..i + 1];
    assert forall k :: 0 <= k < i ==> before[k] == next[k];
    if bindings[i].workspace.id in HandlersOf(before) {
      var k :| 0 <= k < |before| && before[k].workspace.id == bindings[i].workspace.id;
      assert next[k].workspace.id == next[i].workspace.id;
    }
  }

  lemma CollectNext(bindings: seq<Binding>, i: nat)
    requires i < |bindings| && bindings[i].handler.Handler?
    ensures var b := bindings[i];
            && HandlersOf(bindings[..i + 1]) == HandlersOf(bindings[..i])[b.workspace.id := b.handler.server]
            && Expiries(TableOf(Workspaces(bindings[..i + 1])))
                 == Expiries(TableOf(Workspaces(bindings[..i])))[b.workspace.id := b.workspace.expiresAt]
  {
    assert bindings[..i + 1][..i] == bindings[..i];
    assert Workspaces(bindings[..i + 1])[..i] == Workspaces(bindings[..i]);
  }

  method RevokeAll(handlers: Handlers, ids: set<string>, before: set<nat>) returns (revoked: set<nat>)
    requires ids <= handlers.Keys
    ensures revoked == before + Servers(handlers, ids)
  {
    revoked := before;
    var rest := ids;
    while rest != {}
      invariant rest <= ids && revoked == before + Servers(handlers, ids - rest)
      decreases |rest|
    {
      var id :| id in rest;
      ServersMore(handlers, ids - rest, id);
      revoked := revoked + {handlers[id]};
      rest := rest - {id};
      assert ids - rest == (ids - (rest + {id})) + {id};
    }
    assert ids - rest == ids;
  }

  lemma ServersMore(handlers: Handlers, ids: set<string>, id: string)
    requires id in handlers
    ensures Servers(handlers, ids + {id}) == Servers(handlers, ids) + {handlers[id]}
  {
  }

  lemma NothingGone(handlers: Handlers, t: Table)
    ensures Unbind(handlers, {}) == handlers && Without(t, {}) == t && Servers(handlers, {}) == {}
  {
  }

  lemma GoneMore(handlers: Handlers, t: Table, gone: set<string>, id: string)
    requires id in handlers && id !in gone
    ensures Unbind(Unbind(handlers, gone), {id}) == Unbind(handlers, gone + {id})
    ensures Without(Without(t, gone), {id}) == Without(t, gone + {id})
    ensures Servers(handlers, gone + {id}) == Servers(handlers, gone) + {handlers[id]}
  {
  }

  /** Unbinding moves servers from the routed ones to those unbound. */
  lemma InstalledKept(before: Handlers, after: Handlers, ids: set<string>)
    requires after == Unbind(before, ids)
    ensures before.Values <= after.Values + Servers(before, ids)
  {
    forall server | server in before.Values
      ensures server in after.Values + Servers(before, ids)
    {
      var id :| id in before && before[id] == server;
      assert id !in ids ==> id in after && after[id] == server;
    }
  }

  lemma ReboundKept(before: Handlers, after: Handlers)
    ensures before.Values <= after.Values + Servers(before, Rebound(before, after))
  {
    forall server | server in before.Values
      ensures server in after.Values + Servers(before, Rebound(before, after))
    {
      var id :| id in before && before[id] == server;
      assert id !in Rebound(before, after) ==> id in after && after[id] == server;
    }
  }

  lemma AllServers(handlers: Handlers)
    ensures Servers(handlers, handlers.Keys) == handlers.Values
  {
  }

  // ----- when a routed server can be a revoked one ---------------------------------------------------

  ghost predicate Unrevoked(handlers: Handlers, revoked: set<nat>) {
    forall id :: id in handlers ==> handlers[id] !in revoked
  }

  /** A replacement routes no revoked server if and only if every server it binds is still unrevoked
      and keeps every identifier it had: a server moved to another identifier is revoked on the way. */
  lemma ReplacementUnrevoked(before: Handlers, after: Handlers, revoked: set<nat>)
    ensures Unrevoked(after, revoked + Servers(before, Rebound(before, after)))
            <==> Unrevoked(after, revoked)
                 && forall id, old_id :: id in after && old_id in before && before[old_id] == after[id]
                      ==> old_id in after && after[old_id] == before[old_id]
  {
    var lost := Servers(before, Rebound(before, after));
    if !(forall id, old_id :: id in after && old_id in before && before[old_id] == after[id]
           ==> old_id in after && after[old_id] == before[old_id])
    {
      var id, old_id :| id in after && old_id in before && before[old_id] == after[id]
                        && !(old_id in after && after[old_id] == before[old_id]);
      assert old_id in Rebound(before, after);
      assert after[id] in lost;
    }
  }

  /** Such a move exists: one server, bound to a and then to b, stays routed and is revoked. */
  lemma MovedServerIsRevoked()
    ensures var before: Handlers, after: Handlers := map["a" := 1], map["b" := 1];
            !Unrevoked(after, Servers(before, Rebound(before, after)))
  {
    var before: Handlers, after: Handlers := map["a" := 1], map["b" := 1];
    assert "a" in Rebound(before, after);
    assert after["b"] in Servers(before, Rebound(before, after));
  }

  ghost predicate Injective(handlers: Handlers) {
    forall id, other :: id in handlers && other in handlers && handlers[id] == handlers[other] ==> id == other
  }

  /** A replacement that binds a server of its own, never installed before, to every workspace. */
  ghost predicate BindsFresh(s: Routing, change: Change) {
    change.Replacement? ==> Injective(change.after) && change.after.Values !! s.installed
  }

  /** The routing after a run of changes from the empty router. */
  function Routed(changes: seq<Change>): Routing {
    if changes == [] then Routing(map[], {}, {})
    else Changed(Routed(changes[..|changes| - 1]), changes[|changes| - 1])
  }

  ghost predicate FreshAt(changes: seq<Change>, n: nat)
    requires n < |changes|
  {
    BindsFresh(Routed(changes[..n]), changes[n])
  }

  ghost predicate Apart(s: Routing) {
    && Injective(s.handlers) && Unrevoked(s.handlers, s.revoked)
    && s.handlers.Values <= s.installed && s.revoked <= s.installed
  }

  lemma ChangeApart(s: Routing, change: Change)
    requires Apart(s) && BindsFresh(s, change)
    ensures Apart(Changed(s, change))
  {
    var next := Changed(s, change);
    forall id | id in next.handlers
      ensures next.handlers[id] !in next.revoked
    {
      assert change.Replacement? ==> next.handlers[id] in change.after.Values;
    }
  }

  /** A caller that builds a new server for every workspace of every replacement, as the reload of the
      workspace configuration does, never has a revoked server routed, in any run. */
  lemma {:induction false} FreshServersUnrevoked(changes: seq<Change>)
    requires forall n :: 0 <= n < |changes| ==> FreshAt(changes, n)
    ensures Apart(Routed(changes))
  {
    if changes != [] {
      var before := changes[..|changes| - 1];
      forall n | 0 <= n < |before|
        ensures FreshAt(before, n)
      {
        assert before[..n] == changes[..n] && FreshAt(changes, n);
      }
      FreshServersUnrevoked(before);
      assert FreshAt(changes, |before|);
      ChangeApart(Routed(before), changes[|before|]);
    }
  }

  /** Removing workspaces leaves no revoked server routed if and only if no server is bound both to a
      removed identifier and to one that stays. */
  lemma RemovalUnrevoked(before: Handlers, gone: set<string>, revoked: set<nat>)
    ensures Unrevoked(Unbind(before, gone), revoked + Servers(before, gone))
            <==> Unrevoked(Unbind(before, gone), revoked)
                 && forall id, other :: id in before && id in gone && other in before && other !in gone
                      ==> before[id] != before[other]
  {
    var after := Unbind(before, gone);
    if Unrevoked(after, revoked + Servers(before, gone)) {
      forall id, other | id in before && id in gone && other in before && other !in gone
        ensures before[id] != before[other]
      {
        assert before[id] in Servers(before, gone) && other in after;
      }
    }
  }
}
