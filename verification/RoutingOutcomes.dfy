/** How every call to `resolve` ends, and what moves the status it depends on, over every run of the routing
    system. */
module RoutingOutcomes {
  import opened Wrappers
  import opened EngineCache
  import opened DataPlane
  import opened Routing
  import opened RoutingLaws

  // ----- from the record a call begins on to its end -----

  /** The record lets a call go on to its connection. */
  predicate Serves(r: Record) {
    r.mode == TenantOwned && r.status == Ready && r.connectionId.Some? && r.connectionId.value != ""
  }

  /** Where a call that began on this record may stand. */
  predicate StandsOn(c: Call, r: Record) {
    match c
    case Looked(_, id) => Serves(r) && r.connectionId == Some(id)
    case Fetched(_, id, _) => Serves(r) && r.connectionId == Some(id)
    case Done(_, PlatformEngine) => r.mode == PlatformMode
    case Done(_, NotReady(status)) => r.mode == TenantOwned && r.status == status && status != Ready
    case Done(_, StoreEngine(_)) => Serves(r)
    case Done(_, Unavailable(_)) => r.mode == TenantOwned && r.status == Ready
  }

  /** A lookup goes on to the connection exactly for a tenant-owned, ready and bound record. */
  lemma LookupProceedsIff(tenant: string, r: Record)
    ensures AfterLookup(tenant, r).Looked? <==> Serves(r)
    ensures Serves(r) ==> AfterLookup(tenant, r) == Looked(tenant, r.connectionId.value)
    ensures AfterLookup(tenant, r).tenant == tenant && StandsOn(AfterLookup(tenant, r), r)
  {
  }

  lemma NodeStepStandsOn(w: World, node: Node, a: NodeAction, s: Settings, c: nat, r: Record)
    requires c in node.calls && StandsOn(node.calls[c], r)
    ensures var after := NodeStep(w, node, a, s).calls;
            && c in after && StandsOn(after[c], r) && after[c].tenant == node.calls[c].tenant
            && (node.calls[c].Done? ==> after[c] == node.calls[c])
  {
  }

  lemma StepStandsOn(w: World, a: Action, s: Settings, n: string, c: nat, r: Record)
    requires n in w.nodes && c in w.nodes[n].calls && StandsOn(w.nodes[n].calls[c], r)
    ensures n in Step(w, a, s).nodes && c in Step(w, a, s).nodes[n].calls
    ensures StandsOn(Step(w, a, s).nodes[n].calls[c], r)
    ensures Step(w, a, s).nodes[n].calls[c].tenant == w.nodes[n].calls[c].tenant
    ensures w.nodes[n].calls[c].Done? ==> Step(w, a, s).nodes[n].calls[c] == w.nodes[n].calls[c]
  {
    StepNodes(w, a, s);
    if a.AtNode? && a.node == n { NodeStepStandsOn(w, w.nodes[n], a.local, s, c, r); }
  }

  lemma {:induction false} RunStandsOn(w: World, actions: seq<Action>, s: Settings, n: string, c: nat, r: Record)
    requires n in w.nodes && c in w.nodes[n].calls && StandsOn(w.nodes[n].calls[c], r)
    ensures n in Run(w, actions, s).nodes && c in Run(w, actions, s).nodes[n].calls
    ensures StandsOn(Run(w, actions, s).nodes[n].calls[c], r)
    ensures Run(w, actions, s).nodes[n].calls[c].tenant == w.nodes[n].calls[c].tenant
    ensures w.nodes[n].calls[c].Done? ==> Run(w, actions, s).nodes[n].calls[c] == w.nodes[n].calls[c]
    decreases |actions|
  {
    if actions != [] {
      StepStandsOn(w, actions[0], s, n, c, r);
      RunStandsOn(Step(w, actions[0], s), actions[1..], s, n, c, r);
    }
  }

  /** What a lookup in process `n` finds. */
  function Found(w: World, s: Settings, n: string, tenant: string): Record
    requires n in w.nodes
  {
    Lookup(w.nodes[n].cache, w.planes, tenant, w.now, s.ttl).0
  }

  lemma BeginStandsOn(w: World, s: Settings, n: string, c: nat, tenant: string)
    requires n in w.nodes && c !in w.nodes[n].calls
    ensures var begun := Step(w, AtNode(n, Begin(c, tenant)), s);
            && n in begun.nodes && c in begun.nodes[n].calls
            && begun.nodes[n].calls[c] == AfterLookup(tenant, Found(w, s, n, tenant))
  {
  }

  /** A snapshot of the last TTL in which the tenant's record is this one. */
  predicate FoundAt(w: World, s: Settings, tenant: string, r: Record, k: nat) {
    StoodWithin(w.history, k, w.now - s.ttl, w.now) && Selected(w.history[k].planes, tenant) == r
  }

  /** However the processes interleave, a call ends as a record of the tenant allows that stood in the table
      within the TTL before the call began: with an engine of a store only if the store was ready then, with
      `NotReady` only at a status the row had then, with the platform engine only if the row was then missing or a
      platform tenant's. */
  lemma CallEndsByFreshRecord(w: World, before: seq<Action>, after: seq<Action>, s: Settings, n: string, c: nat, tenant: string)
    returns (k: nat, r: Record)
    requires Initial(w) && n in Run(w, before, s).nodes && c !in Run(w, before, s).nodes[n].calls
    ensures FoundAt(Run(w, before, s), s, tenant, r, k)
    ensures var end := Run(Step(Run(w, before, s), AtNode(n, Begin(c, tenant)), s), after, s);
            && n in end.nodes && c in end.nodes[n].calls && end.nodes[n].calls[c].tenant == tenant
            && (end.nodes[n].calls[c].Done? ==>
                  match end.nodes[n].calls[c].outcome
                  case PlatformEngine => r.mode == PlatformMode
                  case NotReady(status) => r.mode == TenantOwned && r.status == status && status != Ready
                  case StoreEngine(_) => r.mode == TenantOwned && r.status == Ready && r.connectionId.Some?
                  case Unavailable(_) => r.mode == TenantOwned && r.status == Ready)
  {
    var mid := Run(w, before, s);
    r := Found(mid, s, n, tenant);
    RecordIsFresh(w, before, s, n, tenant);
    k :| StoodWithin(mid.history, k, mid.now - s.ttl, mid.now) && Selected(mid.history[k].planes, tenant) == r;
    BeginStandsOn(mid, s, n, c, tenant);
    LookupProceedsIff(tenant, r);
    RunStandsOn(Step(mid, AtNode(n, Begin(c, tenant)), s), after, s, n, c, r);
  }

  /** So once a tenant's store has been anything but ready for a whole TTL, every call begun anywhere is refused
      with a status the row had, whatever was cached and whatever happens while it runs. */
  lemma ShutStoreIsRefused(w: World, before: seq<Action>, after: seq<Action>, s: Settings, n: string, c: nat, tenant: string)
    requires Initial(w) && n in Run(w, before, s).nodes && c !in Run(w, before, s).nodes[n].calls
    requires var mid := Run(w, before, s);
             forall k: nat :: StoodWithin(mid.history, k, mid.now - s.ttl, mid.now) ==>
               tenant in mid.history[k].planes && mid.history[k].planes[tenant].mode == TenantOwned
               && mid.history[k].planes[tenant].status != Ready
    ensures var mid := Run(w, before, s); var end := Run(Step(mid, AtNode(n, Begin(c, tenant)), s), after, s);
            && n in end.nodes && c in end.nodes[n].calls
            && exists k: nat :: StoodWithin(mid.history, k, mid.now - s.ttl, mid.now)
                 && end.nodes[n].calls[c] == Done(tenant, NotReady(Selected(mid.history[k].planes, tenant).status))
  {
    var mid := Run(w, before, s);
    var begun := Step(mid, AtNode(n, Begin(c, tenant)), s);
    RecordIsFresh(w, before, s, n, tenant);
    var r := Found(mid, s, n, tenant);
    var k: nat :| StoodWithin(mid.history, k, mid.now - s.ttl, mid.now) && Selected(mid.history[k].planes, tenant) == r;
    BeginStandsOn(mid, s, n, c, tenant);
    LookupProceedsIff(tenant, r);
    assert begun.nodes[n].calls[c] == Done(tenant, NotReady(r.status));
    RunStandsOn(begun, after, s, n, c, r);
  }

  /** A pause reaches a process that has the row cached when the TTL is over, and not before: until then its
      calls still go on to the store. */
  lemma PauseTakesEffectIff(w: World, s: Settings, n: string, tenant: string, c: nat, later: nat, d: nat)
    requires n in w.nodes && c !in w.nodes[n].calls && later !in w.nodes[n].calls && c != later
    requires tenant !in w.nodes[n].cache && tenant in w.planes && Serves(w.planes[tenant])
    ensures var cached := Step(w, AtNode(n, Begin(c, tenant)), s);
            var ticked := Step(Step(cached, Transit(tenant, MarkPaused), s), Tick(d), s);
            var end := Step(ticked, AtNode(n, Begin(later, tenant)), s);
            && n in end.nodes && later in end.nodes[n].calls
            && end.nodes[n].calls[later] == if d <= s.ttl then Looked(tenant, w.planes[tenant].connectionId.value)
                                            else Done(tenant, NotReady(Paused))
  {
    var cached := Step(w, AtNode(n, Begin(c, tenant)), s);
    assert cached.nodes[n].cache[tenant] == Cached(w.now, w.planes[tenant]);
    var ticked := Step(Step(cached, Transit(tenant, MarkPaused), s), Tick(d), s);
    assert ticked.planes[tenant].status == Paused && ticked.planes[tenant].mode == TenantOwned;
    BeginStandsOn(ticked, s, n, later, tenant);
  }

  // ----- the whole of one call -----

  /** The outcome of a call, from the record it begins on, the connections when it fetches, and the engines of
      its process and the next serial number when it finishes. */
  function OutcomeOf(
    tenant: string, r: Record, connections: map<string, Connection>, entries: seq<Entry>, serial: nat, build: Build): Outcome
  {
    if r.mode == PlatformMode then PlatformEngine
    else if r.status != Ready then NotReady(r.status)
    else if r.connectionId.None? || r.connectionId.value == "" then Unavailable("connection_missing")
    else
      var id := r.connectionId.value;
      if id !in connections || !connections[id].active then Unavailable("connection_missing")
      else
        var row := connections[id];
        match Find(entries, Key(tenant, id, row.version))
        case Some(e) => StoreEngine(e)
        case None =>
          match build
          case Succeeds => StoreEngine(Engine(serial, tenant, row.configuration, row.secrets))
          case NoSecret => Unavailable("secret_unresolvable")
          case BadConfiguration => Unavailable("connect_failed")
  }

  /** The action takes this call of this process a stretch further. */
  predicate Drives(a: Action, n: string, c: nat) {
    a.AtNode? && a.node == n && ((a.local.Fetch? && a.local.call == c) || (a.local.Finish? && a.local.call == c))
  }

  lemma {:induction false} CallHeld(w: World, actions: seq<Action>, s: Settings, n: string, c: nat)
    requires n in w.nodes && c in w.nodes[n].calls && forall a :: a in actions ==> !Drives(a, n, c)
    ensures n in Run(w, actions, s).nodes && c in Run(w, actions, s).nodes[n].calls
    ensures Run(w, actions, s).nodes[n].calls[c] == w.nodes[n].calls[c]
    decreases |actions|
  {
    if actions != [] {
      assert actions[0] in actions;
      CallHeld(Step(w, actions[0], s), actions[1..], s, n, c);
    }
  }

  /** Where a call stands behind its second stretch. */
  function AfterFetch(tenant: string, r: Record, connections: map<string, Connection>): Call {
    if !Serves(r) then AfterLookup(tenant, r)
    else
      var id := r.connectionId.value;
      if id in connections && connections[id].active then Fetched(tenant, id, connections[id])
      else Done(tenant, Unavailable("connection_missing"))
  }

  lemma FetchIs(w: World, s: Settings, n: string, c: nat, tenant: string, r: Record)
    requires n in w.nodes && c in w.nodes[n].calls && w.nodes[n].calls[c] == AfterLookup(tenant, r)
    ensures var after := Step(w, AtNode(n, Fetch(c)), s);
            n in after.nodes && c in after.nodes[n].calls && after.nodes[n].calls[c] == AfterFetch(tenant, r, w.connections)
  {
    StepNodes(w, AtNode(n, Fetch(c)), s);
    LookupProceedsIff(tenant, r);
  }

  /** A fetched call finishes with the engine cached under its key, or as the building of one ends. */
  lemma FetchedFinishes(
    node: Node, tenant: string, r: Record, connections: map<string, Connection>, serial: nat, build: Build, maxEngines: int)
    requires AfterFetch(tenant, r, connections).Fetched?
    ensures FinishCall(node, AfterFetch(tenant, r, connections), serial, build, maxEngines).1 ==
            OutcomeOf(tenant, r, connections, node.engines.entries, serial, build)
  {
    LookupProceedsIff(tenant, r);
  }

  lemma EndedStays(tenant: string, r: Record, connections: map<string, Connection>, entries: seq<Entry>, serial: nat, build: Build)
    requires !AfterFetch(tenant, r, connections).Fetched?
    ensures AfterFetch(tenant, r, connections) == Done(tenant, OutcomeOf(tenant, r, connections, entries, serial, build))
  {
    LookupProceedsIff(tenant, r);
  }

  lemma FinishIs(
    w: World, s: Settings, n: string, c: nat, tenant: string, r: Record, connections: map<string, Connection>, build: Build)
    requires n in w.nodes && c in w.nodes[n].calls && w.nodes[n].calls[c] == AfterFetch(tenant, r, connections)
    ensures var after := Step(w, AtNode(n, Finish(c, build)), s);
            && n in after.nodes && c in after.nodes[n].calls
            && after.nodes[n].calls[c] ==
               Done(tenant, OutcomeOf(tenant, r, connections, w.nodes[n].engines.entries, w.nextSerial, build))
  {
    StepNodes(w, AtNode(n, Finish(c, build)), s);
    if AfterFetch(tenant, r, connections).Fetched? {
      FetchedFinishes(w.nodes[n], tenant, r, connections, w.nextSerial, build, s.maxEngines);
    } else {
      EndedStays(tenant, r, connections, w.nodes[n].engines.entries, w.nextSerial, build);
    }
  }

  /** One call from end to end, with anything at all going on between its three stretches. */
  lemma CallOutcomeIs(w: World, xs: seq<Action>, ys: seq<Action>, s: Settings, n: string, c: nat, tenant: string, build: Build,
                      atFetch: World, atFinish: World)
    requires n in w.nodes && c !in w.nodes[n].calls && forall a :: a in xs + ys ==> !Drives(a, n, c)
    requires atFetch == Run(Step(w, AtNode(n, Begin(c, tenant)), s), xs, s)
    requires atFinish == Run(Step(atFetch, AtNode(n, Fetch(c)), s), ys, s)
    ensures var end := Step(atFinish, AtNode(n, Finish(c, build)), s);
            && n in atFinish.nodes && n in end.nodes && c in end.nodes[n].calls
            && end.nodes[n].calls[c] ==
               Done(tenant, OutcomeOf(tenant, Found(w, s, n, tenant), atFetch.connections,
                                      atFinish.nodes[n].engines.entries, atFinish.nextSerial, build))
  {
    assert forall a :: a in xs ==> a in xs + ys;
    assert forall a :: a in ys ==> a in xs + ys;
    var r := Found(w, s, n, tenant);
    BeginStandsOn(w, s, n, c, tenant);
    CallHeld(Step(w, AtNode(n, Begin(c, tenant)), s), xs, s, n, c);
    FetchIs(atFetch, s, n, c, tenant, r);
    CallHeld(Step(atFetch, AtNode(n, Fetch(c)), s), ys, s, n, c);
    FinishIs(atFinish, s, n, c, tenant, r, atFetch.connections, build);
  }

  // ----- what moves a status -----

  /** A transition takes a row from one status to the other. */
  predicate Takes(t: Transition, from: Status, to: Status) {
    match t
    case MarkPaused => from == Ready && to == Paused
    case MarkReadyFromPaused => from == Paused && to == Ready
    case MarkProvisioning(_) => from in {AwaitingStore, ProvisioningFailed} && to == Provisioning
    case MarkRetired => from in {Ready, Paused, MigrationRequired, ProvisioningFailed} && to == StoreRetired
    case ProvisioningOutcome(ready, _) => from == Provisioning && to == if ready then Ready else ProvisioningFailed
  }

  /** The reason a transition leaves behind. */
  predicate Explains(t: Transition, reason: string) {
    match t
    case MarkPaused => reason == "connection_paused"
    case MarkReadyFromPaused => reason == "reactivated"
    case MarkProvisioning(_) => reason == "activation_enqueued"
    case MarkRetired => reason == "retired"
    case ProvisioningOutcome(_, why) => reason == why
  }

  lemma TransitionTakes(planes: Planes, tenant: string, t: Transition)
    requires tenant in planes
    ensures var after := Transitioned(planes, tenant, t);
            && tenant in after
            && (forall to :: Takes(t, planes[tenant].status, to) ==> after[tenant].status == to)
            && (after == planes || (Takes(t, planes[tenant].status, after[tenant].status) && Explains(t, after[tenant].reason)))
            && after[tenant].mode == planes[tenant].mode
            && after[tenant].connectionId == (if t.MarkProvisioning? && after != planes then Some(t.connectionId) else planes[tenant].connectionId)
  {
  }

  /** The action takes the tenant's row from one status to the other. */
  predicate TakesTenant(a: Action, tenant: string, from: Status, to: Status) {
    match a
    case Transit(t, transition) => t == tenant && Takes(transition, from, to)
    case FinishMigration(t, upToDate, _) => t == tenant && to == if upToDate then Ready else MigrationRequired
    case _ => false
  }

  /** The state machine of a row: a step changes its status in these ways and no other. */
  lemma StatusMovesIff(w: World, a: Action, s: Settings, tenant: string, to: Status)
    requires tenant in w.planes && to != w.planes[tenant].status
    ensures tenant in Step(w, a, s).planes
    ensures Step(w, a, s).planes[tenant].status == to <==> TakesTenant(a, tenant, w.planes[tenant].status, to)
  {
    if a.Transit? && a.tenant == tenant { TransitionTakes(w.planes, tenant, a.transition); }
  }

  /** A health outcome is kept of a tenant-owned row only, and nothing else of a row changes with it. */
  lemma HealthIsKept(w: World, s: Settings, tenant: string, outcome: string)
    requires tenant in w.planes
    ensures Step(w, RecordHealth(tenant, outcome), s).planes ==
            w.planes[tenant := w.planes[tenant].(health := if w.planes[tenant].mode == TenantOwned then outcome else w.planes[tenant].health)]
  {
    assert w.planes[tenant := w.planes[tenant]] == w.planes;
  }

  /** A store is ready for the first time by a provisioning that succeeds, or by the write a migration run
      makes at its end, and not otherwise. */
  lemma {:induction false} ReadyOnlyBy(w: World, actions: seq<Action>, s: Settings, tenant: string)
    requires tenant in w.planes && w.planes[tenant].status in {AwaitingStore, Provisioning, ProvisioningFailed, StoreRetired}
    requires forall a :: a in actions && a.FinishMigration? ==> a.tenant != tenant
    requires forall a :: a in actions && a.Transit? && a.tenant == tenant ==> !(a.transition.ProvisioningOutcome? && a.transition.ready)
    ensures tenant in Run(w, actions, s).planes
    ensures Run(w, actions, s).planes[tenant].status in {AwaitingStore, Provisioning, ProvisioningFailed, StoreRetired}
    decreases |actions|
  {
    if actions != [] {
      var a := actions[0];
      assert a in actions;
      var next := Step(w, a, s);
      StatusMovesIff(w, a, s, tenant, if w.planes[tenant].status == Paused then Ready else Paused);
      if next.planes[tenant].status != w.planes[tenant].status { StatusMovesIff(w, a, s, tenant, next.planes[tenant].status); }
      ReadyOnlyBy(next, actions[1..], s, tenant);
    }
  }
}
