/** Freshness of records, provenance and conservation of engines, and the life of a control-plane
    row, over every run of the routing system. */
module RoutingLaws {
  import opened Wrappers
  import opened EngineCache
  import opened DataPlane
  import opened Routing

  // ----- records are at most one TTL old -----

  /** Snapshot `k` was the table at some moment in `[lo, hi]`. */
  predicate StoodWithin(h: seq<Snapshot>, k: nat, lo: int, hi: int) {
    k < |h| && lo <= hi && h[k].since <= hi && (k + 1 < |h| ==> lo <= h[k + 1].since)
  }

  ghost predicate Witnessed(h: seq<Snapshot>, tenant: string, r: Record, lo: int, hi: int) {
    exists k: nat :: StoodWithin(h, k, lo, hi) && Selected(h[k].planes, tenant) == r
  }

  ghost predicate Chronicled(w: World) {
    && w.history != []
    && w.history[|w.history| - 1].planes == w.planes
    && w.history[|w.history| - 1].since <= w.now
    && forall n, t :: n in w.nodes && t in w.nodes[n].cache ==>
         w.nodes[n].cache[t].fetchedAt <= w.now
         && Witnessed(w.history, t, w.nodes[n].cache[t].record, w.nodes[n].cache[t].fetchedAt, w.nodes[n].cache[t].fetchedAt)
  }

  lemma WitnessedGrows(h: seq<Snapshot>, next: Snapshot, tenant: string, r: Record, at: int)
    requires Witnessed(h, tenant, r, at, at) && at <= next.since
    ensures Witnessed(h + [next], tenant, r, at, at)
  {
    var k: nat :| StoodWithin(h, k, at, at) && Selected(h[k].planes, tenant) == r;
    assert (h + [next])[k] == h[k];
    assert StoodWithin(h + [next], k, at, at);
  }

  lemma CurrentWitnessed(w: World, tenant: string)
    requires w.history != [] && w.history[|w.history| - 1].planes == w.planes && w.history[|w.history| - 1].since <= w.now
    ensures Witnessed(w.history, tenant, Selected(w.planes, tenant), w.now, w.now)
  {
    assert StoodWithin(w.history, |w.history| - 1, w.now, w.now);
  }

  lemma WithPlanesChronicled(w: World, planes: Planes)
    requires Chronicled(w)
    ensures Chronicled(WithPlanes(w, planes))
  {
    forall n, t | n in w.nodes && t in w.nodes[n].cache
      ensures Witnessed(WithPlanes(w, planes).history, t, w.nodes[n].cache[t].record,
                        w.nodes[n].cache[t].fetchedAt, w.nodes[n].cache[t].fetchedAt)
    {
      WitnessedGrows(w.history, Snapshot(w.now, planes), t, w.nodes[n].cache[t].record, w.nodes[n].cache[t].fetchedAt);
    }
  }

  /** A step at a node leaves a cached record alone, drops it, or has just read it from the table. */
  lemma NodeStepCache(w: World, node: Node, a: NodeAction, s: Settings)
    ensures forall t :: t in NodeStep(w, node, a, s).cache ==>
              || (t in node.cache && NodeStep(w, node, a, s).cache[t] == node.cache[t])
              || NodeStep(w, node, a, s).cache[t] == Cached(w.now, Selected(w.planes, t))
  {
  }

  lemma StepChronicled(w: World, a: Action, s: Settings)
    requires Chronicled(w)
    ensures Chronicled(Step(w, a, s))
  {
    if a.AtNode? {
      if a.node in w.nodes {
        NodeStepCache(w, w.nodes[a.node], a.local, s);
        forall t { CurrentWitnessed(w, t); }
      }
    } else if Step(w, a, s).history != w.history {
      WithPlanesChronicled(w, Step(w, a, s).planes);
      assert Step(w, a, s) == WithPlanes(w, Step(w, a, s).planes);
    }
  }

  lemma {:induction false} RunChronicled(w: World, actions: seq<Action>, s: Settings)
    requires Chronicled(w)
    ensures Chronicled(Run(w, actions, s))
    decreases |actions|
  {
    if actions != [] {
      StepChronicled(w, actions[0], s);
      RunChronicled(Step(w, actions[0], s), actions[1..], s);
    }
  }

  /** In every reachable state and every process, a lookup returns the row (or its absence) as it
      stood at some moment of the last TTL. */
  lemma RecordIsFresh(w: World, actions: seq<Action>, s: Settings, n: string, tenant: string)
    requires Initial(w) && n in Run(w, actions, s).nodes
    ensures var end := Run(w, actions, s);
            Witnessed(end.history, tenant, Lookup(end.nodes[n].cache, end.planes, tenant, end.now, s.ttl).0,
                      end.now - s.ttl, end.now)
  {
    RunChronicled(w, actions, s);
    var end := Run(w, actions, s);
    var cache := end.nodes[n].cache;
    CurrentWitnessed(end, tenant);
    var at := if CacheGet(cache, tenant, end.now, s.ttl).Some? then cache[tenant].fetchedAt else end.now;
    var r := Lookup(cache, end.planes, tenant, end.now, s.ttl).0;
    assert Witnessed(end.history, tenant, r, at, at);
    var k: nat :| StoodWithin(end.history, k, at, at) && Selected(end.history[k].planes, tenant) == r;
    assert StoodWithin(end.history, k, end.now - s.ttl, end.now);
  }

  /** So once the tenant's row has been tenant-owned for a whole TTL, no call starting anywhere can
      be given the platform engine, whatever was looked up before the row existed. */
  lemma OwnedForTtlSuffices(w: World, actions: seq<Action>, s: Settings, n: string, tenant: string)
    requires Initial(w) && n in Run(w, actions, s).nodes
    requires var end := Run(w, actions, s);
             forall k: nat :: StoodWithin(end.history, k, end.now - s.ttl, end.now) ==>
               tenant in end.history[k].planes && end.history[k].planes[tenant].mode == TenantOwned
    ensures var end := Run(w, actions, s);
            AfterLookup(tenant, Lookup(end.nodes[n].cache, end.planes, tenant, end.now, s.ttl).0) != Done(tenant, PlatformEngine)
  {
    RecordIsFresh(w, actions, s, n, tenant);
  }

  // ----- the process that makes a transition -----

  lemma {:induction false} CacheStaysEmpty(w: World, actions: seq<Action>, s: Settings, n: string, tenant: string)
    requires n in w.nodes && tenant !in w.nodes[n].cache
    requires forall a :: a in actions ==> !(LooksUp(a, tenant) && a.node == n)
    ensures n in Run(w, actions, s).nodes && tenant !in Run(w, actions, s).nodes[n].cache
    decreases |actions|
  {
    if actions != [] {
      assert actions[0] in actions;
      CacheStaysEmpty(Step(w, actions[0], s), actions[1..], s, n, tenant);
    }
  }

  /** A transition invalidates the record of its own process before the caller commits. The process sees
      the transition at once if it looks nothing up in between, whatever else happens. */
  lemma OwnTransitionSeen(w: World, between: seq<Action>, s: Settings, n: string, tenant: string, t: Transition)
    requires n in w.nodes && forall a :: a in between ==> !(LooksUp(a, tenant) && a.node == n)
    ensures var committed := Step(Run(Step(w, AtNode(n, InvalidateRecord(tenant)), s), between, s), Transit(tenant, t), s);
            && n in committed.nodes
            && Lookup(committed.nodes[n].cache, committed.planes, tenant, committed.now, s.ttl).0 == Selected(committed.planes, tenant)
  {
    CacheStaysEmpty(Step(w, AtNode(n, InvalidateRecord(tenant)), s), between, s, n, tenant);
  }

  /** A lookup in between caches the row as it was, and hides the transition from the very process that
      made it for exactly a TTL. */
  lemma OwnTransitionHidden(w: World, s: Settings, n: string, tenant: string, t: Transition, c: nat, d: nat)
    requires n in w.nodes && c !in w.nodes[n].calls && Moves(w.planes, tenant, t)
    ensures var cached := Step(Step(w, AtNode(n, InvalidateRecord(tenant)), s), AtNode(n, Begin(c, tenant)), s);
            var later := Step(Step(cached, Transit(tenant, t), s), Tick(d), s);
            && n in later.nodes && later.planes[tenant] == Updated(w.planes[tenant], t)
            && Lookup(later.nodes[n].cache, later.planes, tenant, later.now, s.ttl).0 ==
               if d <= s.ttl then w.planes[tenant] else Updated(w.planes[tenant], t)
  {
    var emptied := Step(w, AtNode(n, InvalidateRecord(tenant)), s);
    assert tenant !in emptied.nodes[n].cache && c !in emptied.nodes[n].calls;
    var cached := Step(emptied, AtNode(n, Begin(c, tenant)), s);
    assert cached.nodes[n].cache[tenant] == Cached(w.now, w.planes[tenant]);
  }

  // ----- engines come from the row fetched -----

  predicate EntryMatches(e: Entry, issued: map<VersionKey, Connection>) {
    var k := VersionKey(e.key.connectionId, e.key.version);
    k in issued && e.engine.configuration == issued[k].configuration && e.engine.secrets == issued[k].secrets
  }

  predicate CallMatches(c: Call, issued: map<VersionKey, Connection>) {
    c.Fetched? ==>
      var k := VersionKey(c.connectionId, c.row.version);
      k in issued && issued[k] == c.row && c.row.active
  }

  predicate NodeMatches(node: Node, issued: map<VersionKey, Connection>) {
    && (forall i :: 0 <= i < |node.engines.entries| ==> EntryMatches(node.engines.entries[i], issued))
    && OwnsEntries(node.engines.entries)
    && forall c :: c in node.calls ==> CallMatches(node.calls[c], issued)
  }

  predicate ConnectionsIssued(w: World) {
    forall c :: c in w.connections ==>
      VersionKey(c, w.connections[c].version) in w.issued
      && w.issued[VersionKey(c, w.connections[c].version)] == w.connections[c]
  }

  predicate Versioned(w: World) {
    ConnectionsIssued(w) && forall n :: n in w.nodes ==> NodeMatches(w.nodes[n], w.issued)
  }

  lemma ResolvedMatches(p: Process, key: Key, engine: Engine, maxSize: int, issued: map<VersionKey, Connection>)
    requires forall i :: 0 <= i < |p.entries| ==> EntryMatches(p.entries[i], issued)
    requires Find(p.entries, key).None? ==> EntryMatches(Entry(key, engine), issued)
    ensures forall i :: 0 <= i < |Resolved(p, key, engine, maxSize).entries| ==>
              EntryMatches(Resolved(p, key, engine, maxSize).entries[i], issued)
    ensures Find(p.entries, key).Some? ==> EntryMatches(Entry(key, Find(p.entries, key).value), issued)
  {
    FindMember(p.entries, key);
    WithoutMembers(p.entries, key);
    forall i | 0 <= i < |Without(p.entries, key)| ensures EntryMatches(Without(p.entries, key)[i], issued) {
      assert Without(p.entries, key)[i] in Without(p.entries, key);
    }
  }

  lemma NodeStepMatches(w: World, node: Node, a: NodeAction, s: Settings)
    requires ConnectionsIssued(w) && NodeMatches(node, w.issued)
    ensures NodeMatches(NodeStep(w, node, a, s), w.issued)
  {
    match a {
      case InvalidateEngines(t) =>
        InvalidatedOwns(node.engines, t);
        KeptMembers(node.engines.entries, t);
        forall i | 0 <= i < |Kept(node.engines.entries, t)| ensures EntryMatches(Kept(node.engines.entries, t)[i], w.issued) {
          assert Kept(node.engines.entries, t)[i] in Kept(node.engines.entries, t);
        }
      case Finish(c, build) =>
        if c in node.calls && node.calls[c].Fetched? {
          var call := node.calls[c];
          var key := Key(call.tenant, call.connectionId, call.row.version);
          var engine := Engine(w.nextSerial, call.tenant, call.row.configuration, call.row.secrets);
          ResolvedOwns(node.engines, key, engine, s.maxEngines);
          ResolvedMatches(node.engines, key, engine, s.maxEngines, w.issued);
        }
      case _ =>
    }
  }

  lemma StepVersioned(w: World, a: Action, s: Settings)
    requires Versioned(w)
    ensures Versioned(Step(w, a, s))
  {
    if a.AtNode? && a.node in w.nodes { NodeStepMatches(w, w.nodes[a.node], a.local, s); }
  }

  lemma {:induction false} RunVersioned(w: World, actions: seq<Action>, s: Settings)
    requires Versioned(w)
    ensures Versioned(Run(w, actions, s))
    decreases |actions|
  {
    if actions != [] {
      StepVersioned(w, actions[0], s);
      RunVersioned(Step(w, actions[0], s), actions[1..], s);
    }
  }

  /** Whenever a call finishes with an engine, cached or new, that engine was built for the call's
      tenant from the configuration and secret references of exactly the active row it fetched,
      however often the row has been edited since the engine was built or the row was read. */
  lemma EngineMatchesFetchedRow(w: World, actions: seq<Action>, s: Settings, n: string, c: nat, build: Build)
    requires Initial(w)
    requires n in Run(w, actions, s).nodes && c in Run(w, actions, s).nodes[n].calls
    requires Run(w, actions, s).nodes[n].calls[c].Fetched?
    ensures var end := Run(w, actions, s);
            var call := end.nodes[n].calls[c];
            var outcome := FinishCall(end.nodes[n], call, end.nextSerial, build, s.maxEngines).1;
            && call.row.active
            && outcome != PlatformEngine
            && (outcome.StoreEngine? ==>
                  outcome.engine.tenant == call.tenant
                  && outcome.engine.configuration == call.row.configuration
                  && outcome.engine.secrets == call.row.secrets)
  {
    RunVersioned(w, actions, s);
    var end := Run(w, actions, s);
    var call := end.nodes[n].calls[c];
    assert CallMatches(call, end.issued);
    var key := Key(call.tenant, call.connectionId, call.row.version);
    var engine := Engine(end.nextSerial, call.tenant, call.row.configuration, call.row.secrets);
    ResolvedOwns(end.nodes[n].engines, key, engine, s.maxEngines);
    ResolvedMatches(end.nodes[n].engines, key, engine, s.maxEngines, end.issued);
  }

  // ----- no engine is leaked or disposed twice -----

  predicate SerialsBelow(built: seq<Engine>, bound: nat) {
    && (forall i :: 0 <= i < |built| ==> built[i].serial < bound)
    && forall i, j :: 0 <= i < j < |built| ==> built[i].serial < built[j].serial
  }

  predicate NodeConserved(node: Node, bound: nat, maxEngines: int) {
    Conserved(node.engines, maxEngines) && SerialsBelow(node.engines.built, bound)
  }

  lemma ResolvedSerials(p: Process, key: Key, engine: Engine, maxSize: int)
    requires SerialsBelow(p.built, engine.serial)
    ensures SerialsBelow(Resolved(p, key, engine, maxSize).built, engine.serial + 1)
  {
  }

  lemma NodeStepConserved(w: World, node: Node, a: NodeAction, s: Settings)
    requires NodeConserved(node, w.nextSerial, s.maxEngines)
    ensures NodeConserved(NodeStep(w, node, a, s), w.nextSerial + 1, s.maxEngines)
  {
    if a.InvalidateEngines? {
      InvalidateConserves(node.engines, a.tenant, s.maxEngines);
    } else if a.Finish? && a.call in node.calls && node.calls[a.call].Fetched? {
      FinishConserves(node, node.calls[a.call], w.nextSerial, a.build, s.maxEngines);
    }
  }

  lemma FinishIs(node: Node, call: Call, serial: nat, build: Build, maxEngines: int)
    requires call.Fetched?
    ensures var key := Key(call.tenant, call.connectionId, call.row.version);
            var engine := Engine(serial, call.tenant, call.row.configuration, call.row.secrets);
            var engines := FinishCall(node, call, serial, build, maxEngines).0;
            engines == node.engines || engines == Resolved(node.engines, key, engine, maxEngines)
  {
  }

  lemma FinishConserves(node: Node, call: Call, serial: nat, build: Build, maxEngines: int)
    requires call.Fetched? && NodeConserved(node, serial, maxEngines)
    ensures var engines := FinishCall(node, call, serial, build, maxEngines).0;
            Conserved(engines, maxEngines) && SerialsBelow(engines.built, serial + 1)
  {
    var key := Key(call.tenant, call.connectionId, call.row.version);
    var engine := Engine(serial, call.tenant, call.row.configuration, call.row.secrets);
    FinishIs(node, call, serial, build, maxEngines);
    ResolveConserves(node.engines, key, engine, maxEngines);
    ResolvedSerials(node.engines, key, engine, maxEngines);
  }

  predicate AllConserved(w: World, maxEngines: int) {
    forall n :: n in w.nodes ==> NodeConserved(w.nodes[n], w.nextSerial, maxEngines)
  }

  /** A step touches the engines of the node it happens at, if any. */
  lemma StepNodes(w: World, a: Action, s: Settings)
    ensures Step(w, a, s).nodes.Keys == w.nodes.Keys
    ensures a.AtNode? && a.node in w.nodes ==>
              && Step(w, a, s).nextSerial == w.nextSerial + 1
              && Step(w, a, s).nodes == w.nodes[a.node := NodeStep(w, w.nodes[a.node], a.local, s)]
    ensures !(a.AtNode? && a.node in w.nodes) ==> Step(w, a, s).nodes == w.nodes && Step(w, a, s).nextSerial == w.nextSerial
  {
  }

  lemma StepConserved(w: World, a: Action, s: Settings)
    requires AllConserved(w, s.maxEngines)
    ensures AllConserved(Step(w, a, s), s.maxEngines)
  {
    StepNodes(w, a, s);
    if a.AtNode? && a.node in w.nodes {
      NodeStepConserved(w, w.nodes[a.node], a.local, s);
      var after := Step(w, a, s).nodes;
      assert forall n :: n in after ==> NodeConserved(after[n], w.nextSerial + 1, s.maxEngines);
    }
  }

  lemma {:induction false} RunConserved(w: World, actions: seq<Action>, s: Settings)
    requires AllConserved(w, s.maxEngines)
    ensures AllConserved(Run(w, actions, s), s.maxEngines)
    decreases |actions|
  {
    if actions != [] {
      StepConserved(w, actions[0], s);
      RunConserved(Step(w, actions[0], s), actions[1..], s);
    }
  }

  lemma {:induction false} IncreasingOnce(built: seq<Engine>, bound: nat, e: Engine)
    requires SerialsBelow(built, bound) && e in built
    ensures multiset(built)[e] == 1
  {
    var last, init := built[|built| - 1], built[..|built| - 1];
    assert built == init + [last];
    if e in init { IncreasingOnce(init, bound, e); }
  }

  /** In every process of every run: the cache stays within its bound, and each engine ever built is
      either cached once and never disposed, or disposed exactly once and no longer cached. */
  lemma EveryEngineAccountedFor(w: World, actions: seq<Action>, s: Settings, n: string, e: Engine)
    requires Initial(w) && n in Run(w, actions, s).nodes && e in Run(w, actions, s).nodes[n].engines.built
    ensures var engines := Run(w, actions, s).nodes[n].engines;
            && |engines.entries| <= Cap(s.maxEngines)
            && Engines(engines.entries)[e] + multiset(engines.disposed)[e] == 1
  {
    RunConserved(w, actions, s);
    var end := Run(w, actions, s);
    IncreasingOnce(end.nodes[n].engines.built, end.nextSerial, e);
  }

  // ----- the life of a row -----

  /** A retired store is left by one step only: the write a migration run makes without looking at
      the status again. No compare-and-set transition leaves it. */
  lemma RetiredLeftOnlyByMigration(w: World, a: Action, s: Settings, tenant: string)
    requires tenant in w.planes && w.planes[tenant].status == StoreRetired
    ensures tenant in Step(w, a, s).planes
    ensures Step(w, a, s).planes[tenant].status != StoreRetired <==> a.FinishMigration? && a.tenant == tenant
  {
  }

  lemma {:induction false} RetiredIsTerminal(w: World, actions: seq<Action>, s: Settings, tenant: string)
    requires tenant in w.planes && w.planes[tenant].status == StoreRetired
    requires forall a :: a in actions && a.FinishMigration? ==> a.tenant != tenant
    ensures tenant in Run(w, actions, s).planes && Run(w, actions, s).planes[tenant].status == StoreRetired
    decreases |actions|
  {
    if actions != [] {
      assert actions[0] in actions;
      RetiredLeftOnlyByMigration(w, actions[0], s, tenant);
      RetiredIsTerminal(Step(w, actions[0], s), actions[1..], s, tenant);
    }
  }

  /** The action is a `mark_provisioning` of this tenant that moves its row. */
  predicate Wins(w: World, a: Action, tenant: string) {
    a.Transit? && a.tenant == tenant && a.transition.MarkProvisioning? && Moves(w.planes, tenant, a.transition)
  }

  /** The action records a failed provisioning of this tenant. */
  predicate Fails(w: World, a: Action, tenant: string) {
    a.Transit? && a.tenant == tenant && a.transition.ProvisioningOutcome? && !a.transition.ready
      && Moves(w.planes, tenant, a.transition)
  }

  predicate Rebinds(a: Action, tenant: string) {
    a.Rebind? && a.tenant == tenant
  }

  predicate Activated(w: World, tenant: string, connectionId: string) {
    && tenant in w.planes && w.planes[tenant].connectionId == Some(connectionId)
    && w.planes[tenant].status !in {AwaitingStore, ProvisioningFailed}
  }

  /** Along the run no provisioning failure is recorded and the connection is not replaced. */
  predicate Undisturbed(w: World, actions: seq<Action>, s: Settings, tenant: string)
    decreases |actions|
  {
    actions != [] ==>
      && !Fails(w, actions[0], tenant) && !Rebinds(actions[0], tenant)
      && Undisturbed(Step(w, actions[0], s), actions[1..], s, tenant)
  }

  predicate NobodyWins(w: World, actions: seq<Action>, s: Settings, tenant: string)
    decreases |actions|
  {
    actions != [] ==> !Wins(w, actions[0], tenant) && NobodyWins(Step(w, actions[0], s), actions[1..], s, tenant)
  }

  lemma ActivatedStep(w: World, a: Action, s: Settings, tenant: string, connectionId: string)
    requires Activated(w, tenant, connectionId) && !Fails(w, a, tenant) && !Rebinds(a, tenant)
    ensures !Wins(w, a, tenant) && Activated(Step(w, a, s), tenant, connectionId)
  {
  }

  lemma {:induction false} ActivatedStays(w: World, actions: seq<Action>, s: Settings, tenant: string, connectionId: string)
    requires Activated(w, tenant, connectionId) && Undisturbed(w, actions, s, tenant)
    ensures NobodyWins(w, actions, s, tenant)
    ensures Activated(Run(w, actions, s), tenant, connectionId)
    decreases |actions|
  {
    if actions != [] {
      ActivatedStep(w, actions[0], s, tenant, connectionId);
      ActivatedStays(Step(w, actions[0], s), actions[1..], s, tenant, connectionId);
    }
  }

  /** Among competing activations exactly one wins: after a winning `mark_provisioning` no other wins,
      and its connection stays the one bound, until a provisioning failure is recorded or the
      connection is replaced. */
  lemma OneActivationWins(w: World, winner: Action, actions: seq<Action>, s: Settings, tenant: string)
    requires Wins(w, winner, tenant) && Undisturbed(Step(w, winner, s), actions, s, tenant)
    ensures NobodyWins(Step(w, winner, s), actions, s, tenant)
    ensures var end := Run(Step(w, winner, s), actions, s);
            tenant in end.planes && end.planes[tenant].connectionId == Some(winner.transition.connectionId)
  {
    ActivatedStays(Step(w, winner, s), actions, s, tenant, winner.transition.connectionId);
  }
}
