/** Many processes resolving engines while the control plane changes under them. */
module Routing {
  import opened Wrappers
  import opened EngineCache
  import opened DataPlane

  /** One row of `public.tenant_data_source_connections`. */
  datatype Connection = Connection(active: bool, configuration: string, secrets: string, version: string)

  datatype VersionKey = VersionKey(connectionId: string, version: string)

  datatype Outcome =
    | PlatformEngine
    | StoreEngine(engine: Engine)
    | NotReady(status: Status)
    | Unavailable(reason: string)

  /** A call to `resolve`, between two of its awaits. */
  datatype Call =
    | Looked(tenant: string, connectionId: string)
    | Fetched(tenant: string, connectionId: string, row: Connection)
    | Done(tenant: string, outcome: Outcome)

  datatype Node = Node(cache: Cache, engines: Process, calls: map<nat, Call>)

  /** The table from `since` on, until the next snapshot. */
  datatype Snapshot = Snapshot(since: int, planes: Planes)

  datatype World = World(
    now: int,
    planes: Planes,
    connections: map<string, Connection>,
    nodes: map<string, Node>,
    history: seq<Snapshot>,
    issued: map<VersionKey, Connection>,
    nextSerial: nat)

  /** How building a missing engine ends. */
  datatype Build = Succeeds | NoSecret | BadConfiguration

  datatype Action =
    | Tick(elapsed: nat)
    | CreateTenant(tenant: string, row: Record)
    | Transit(tenant: string, transition: Transition)
    | Rebind(tenant: string, connectionId: string)
    | FinishMigration(tenant: string, upToDate: bool, outcome: string)
    | RecordHealth(tenant: string, outcome: string)
    | EditConnection(connectionId: string, edited: Connection)
    | AtNode(node: string, local: NodeAction)

  datatype NodeAction =
    | InvalidateRecord(tenant: string)
    | InvalidateEngines(tenant: string)
    | Begin(call: nat, tenant: string)
    | Fetch(call: nat)
    | Finish(call: nat, build: Build)

  datatype Settings = Settings(ttl: nat, maxEngines: int)

  function WithPlanes(w: World, planes: Planes): World {
    w.(planes := planes, history := w.history + [Snapshot(w.now, planes)])
  }

  /** The first stretch of `resolve`, up to the connection query. */
  function AfterLookup(tenant: string, r: Record): Call {
    if r.mode == PlatformMode then Done(tenant, PlatformEngine)
    else if r.status != Ready then Done(tenant, NotReady(r.status))
    else if r.connectionId.None? || r.connectionId.value == "" then Done(tenant, Unavailable("connection_missing"))
    else Looked(tenant, r.connectionId.value)
  }

  /** The last stretch of `resolve`, from the cache lookup on. */
  function FinishCall(node: Node, c: Call, serial: nat, build: Build, maxEngines: int): (Process, Outcome)
    requires c.Fetched?
  {
    var key := Key(c.tenant, c.connectionId, c.row.version);
    var engine := Engine(serial, c.tenant, c.row.configuration, c.row.secrets);
    match Find(node.engines.entries, key)
    case Some(e) => (Resolved(node.engines, key, engine, maxEngines), StoreEngine(e))
    case None =>
      match build
      case NoSecret => (node.engines, Unavailable("secret_unresolvable"))
      case BadConfiguration => (node.engines, Unavailable("connect_failed"))
      case Succeeds => (Resolved(node.engines, key, engine, maxEngines), StoreEngine(engine))
  }

  function NodeStep(w: World, node: Node, a: NodeAction, s: Settings): Node {
    match a
    case InvalidateRecord(t) => node.(cache := node.cache - {t})
    case InvalidateEngines(t) => node.(engines := Invalidated(node.engines, t))
    case Begin(c, t) =>
      if c in node.calls then node
      else
        var (r, cache) := Lookup(node.cache, w.planes, t, w.now, s.ttl);
        node.(cache := cache, calls := node.calls[c := AfterLookup(t, r)])
    case Fetch(c) =>
      if c in node.calls && node.calls[c].Looked? then
        var call := node.calls[c];
        var next := if call.connectionId in w.connections && w.connections[call.connectionId].active
                    then Fetched(call.tenant, call.connectionId, w.connections[call.connectionId])
                    else Done(call.tenant, Unavailable("connection_missing"));
        node.(calls := node.calls[c := next])
      else node
    case Finish(c, build) =>
      if c in node.calls && node.calls[c].Fetched? then
        var (engines, outcome) := FinishCall(node, node.calls[c], w.nextSerial, build, s.maxEngines);
        node.(engines := engines, calls := node.calls[c := Done(node.calls[c].tenant, outcome)])
      else node
  }

  function Step(w: World, a: Action, s: Settings): World {
    match a
    case Tick(d) => w.(now := w.now + d)
    case CreateTenant(t, row) => if t in w.planes then w else WithPlanes(w, w.planes[t := row])
    case Transit(t, transition) => WithPlanes(w, Transitioned(w.planes, t, transition))
    case Rebind(t, c) =>
      if t in w.planes then WithPlanes(w, w.planes[t := w.planes[t].(connectionId := Some(c))]) else w
    case FinishMigration(t, upToDate, outcome) =>
      if t in w.planes
      then WithPlanes(w, w.planes[t := w.planes[t].(status := if upToDate then Ready else MigrationRequired, reason := outcome)])
      else w
    case RecordHealth(t, outcome) =>
      if t in w.planes && w.planes[t].mode == TenantOwned then WithPlanes(w, w.planes[t := w.planes[t].(health := outcome)]) else w
    case EditConnection(c, row) =>
      if VersionKey(c, row.version) in w.issued then w
      else w.(connections := w.connections[c := row], issued := w.issued[VersionKey(c, row.version) := row])
    case AtNode(n, local) =>
      if n in w.nodes
      then w.(nodes := w.nodes[n := NodeStep(w, w.nodes[n], local, s)], nextSerial := w.nextSerial + 1)
      else w
  }

  function Run(w: World, actions: seq<Action>, s: Settings): World
    decreases |actions|
  {
    if actions == [] then w else Run(Step(w, actions[0], s), actions[1..], s)
  }

  lemma {:induction false} RunConcat(w: World, xs: seq<Action>, ys: seq<Action>, s: Settings)
    ensures Run(w, xs + ys, s) == Run(Run(w, xs, s), ys, s)
    decreases |xs|
  {
    if xs == [] {
      assert xs + ys == ys;
    } else {
      assert (xs + ys)[1..] == xs[1..] + ys;
      RunConcat(Step(w, xs[0], s), xs[1..], ys, s);
    }
  }

  /** A deployment just started: nothing cached, nothing running, every row's version on record. */
  predicate Initial(w: World) {
    && w.history == [Snapshot(w.now, w.planes)]
    && (forall n :: n in w.nodes ==> w.nodes[n] == Node(map[], EMPTY_PROCESS, map[]))
    && (forall c :: c in w.connections ==>
          VersionKey(c, w.connections[c].version) in w.issued
          && w.issued[VersionKey(c, w.connections[c].version)] == w.connections[c])
  }

  // ----- never the platform engine for a tenant-owned tenant -----

  predicate CallSafe(c: Call) {
    c.Done? ==>
      && c.outcome != PlatformEngine
      && (c.outcome.StoreEngine? ==> c.outcome.engine.tenant == c.tenant)
  }

  predicate OwnsEntries(es: seq<Entry>) {
    forall i :: 0 <= i < |es| ==> es[i].engine.tenant == es[i].key.tenant
  }

  predicate NodeOwned(node: Node, tenant: string) {
    && (tenant in node.cache ==> node.cache[tenant].record.mode == TenantOwned)
    && OwnsEntries(node.engines.entries)
    && forall c :: c in node.calls && node.calls[c].tenant == tenant ==> CallSafe(node.calls[c])
  }

  predicate Owned(w: World, tenant: string) {
    && tenant in w.planes && w.planes[tenant].mode == TenantOwned
    && forall n :: n in w.nodes ==> NodeOwned(w.nodes[n], tenant)
  }

  lemma ResolvedOwns(p: Process, key: Key, engine: Engine, maxSize: int)
    requires OwnsEntries(p.entries) && engine.tenant == key.tenant
    ensures OwnsEntries(Resolved(p, key, engine, maxSize).entries)
    ensures Find(p.entries, key).Some? ==> Find(p.entries, key).value.tenant == key.tenant
  {
    FindMember(p.entries, key);
    WithoutMembers(p.entries, key);
    forall i | 0 <= i < |Without(p.entries, key)|
      ensures Without(p.entries, key)[i].engine.tenant == Without(p.entries, key)[i].key.tenant
    {
      assert Without(p.entries, key)[i] in Without(p.entries, key);
    }
  }

  lemma InvalidatedOwns(p: Process, tenant: string)
    requires OwnsEntries(p.entries)
    ensures OwnsEntries(Invalidated(p, tenant).entries)
  {
    KeptMembers(p.entries, tenant);
    forall i | 0 <= i < |Kept(p.entries, tenant)|
      ensures Kept(p.entries, tenant)[i].engine.tenant == Kept(p.entries, tenant)[i].key.tenant
    {
      assert Kept(p.entries, tenant)[i] in Kept(p.entries, tenant);
    }
  }

  lemma NodeStepOwned(w: World, node: Node, a: NodeAction, s: Settings, tenant: string)
    requires tenant in w.planes && w.planes[tenant].mode == TenantOwned && NodeOwned(node, tenant)
    ensures NodeOwned(NodeStep(w, node, a, s), tenant)
  {
    match a {
      case InvalidateEngines(t) => InvalidatedOwns(node.engines, t);
      case Finish(c, build) =>
        if c in node.calls && node.calls[c].Fetched? {
          var call := node.calls[c];
          ResolvedOwns(node.engines, Key(call.tenant, call.connectionId, call.row.version),
            Engine(w.nextSerial, call.tenant, call.row.configuration, call.row.secrets), s.maxEngines);
        }
      case _ =>
    }
  }

  lemma StepOwned(w: World, a: Action, s: Settings, tenant: string)
    requires Owned(w, tenant)
    ensures Owned(Step(w, a, s), tenant)
  {
    if a.AtNode? && a.node in w.nodes { NodeStepOwned(w, w.nodes[a.node], a.local, s, tenant); }
  }

  lemma {:induction false} RunOwned(w: World, actions: seq<Action>, s: Settings, tenant: string)
    requires Owned(w, tenant)
    ensures Owned(Run(w, actions, s), tenant)
    decreases |actions|
  {
    if actions != [] {
      StepOwned(w, actions[0], s, tenant);
      RunOwned(Step(w, actions[0], s), actions[1..], s, tenant);
    }
  }

  // ----- before the first lookup -----

  /** The action begins a call for the tenant: the only step that looks its record up. */
  predicate LooksUp(a: Action, tenant: string) {
    a.AtNode? && a.local.Begin? && a.local.tenant == tenant
  }

  /** No process knows anything of the tenant yet. */
  predicate NodeUntouched(node: Node, tenant: string) {
    && tenant !in node.cache && OwnsEntries(node.engines.entries)
    && forall c :: c in node.calls ==> node.calls[c].tenant != tenant
  }

  predicate Untouched(w: World, tenant: string) {
    forall n :: n in w.nodes ==> NodeUntouched(w.nodes[n], tenant)
  }

  lemma NodeStepUntouched(w: World, node: Node, a: NodeAction, s: Settings, tenant: string)
    requires NodeUntouched(node, tenant) && !(a.Begin? && a.tenant == tenant)
    ensures NodeUntouched(NodeStep(w, node, a, s), tenant)
  {
    match a {
      case InvalidateEngines(t) => InvalidatedOwns(node.engines, t);
      case Finish(c, build) =>
        if c in node.calls && node.calls[c].Fetched? {
          var call := node.calls[c];
          ResolvedOwns(node.engines, Key(call.tenant, call.connectionId, call.row.version),
            Engine(w.nextSerial, call.tenant, call.row.configuration, call.row.secrets), s.maxEngines);
        }
      case _ =>
    }
  }

  lemma {:induction false} RunUntouched(w: World, actions: seq<Action>, s: Settings, tenant: string)
    requires Untouched(w, tenant) && forall a :: a in actions ==> !LooksUp(a, tenant)
    ensures Untouched(Run(w, actions, s), tenant)
    decreases |actions|
  {
    if actions != [] {
      var a := actions[0];
      assert a in actions;
      if a.AtNode? && a.node in w.nodes { NodeStepUntouched(w, w.nodes[a.node], a.local, s, tenant); }
      assert Untouched(Step(w, a, s), tenant);
      RunUntouched(Step(w, a, s), actions[1..], s, tenant);
    }
  }

  /** Some moment `k` of the run at which the tenant's row is tenant-owned and nothing has looked it up. */
  predicate RowComesFirst(w: World, actions: seq<Action>, s: Settings, tenant: string, k: nat) {
    && k <= |actions| && (forall a :: a in actions[..k] ==> !LooksUp(a, tenant))
    && tenant in Run(w, actions[..k], s).planes && Run(w, actions[..k], s).planes[tenant].mode == TenantOwned
  }

  /** In every interleaving, across every process, a call for a tenant whose tenant-owned row is there
      before its first lookup, however long after the processes started, ends with an engine built for that
      tenant or an error: never with the platform engine. */
  lemma NeverThePlatform(w: World, actions: seq<Action>, s: Settings, tenant: string, k: nat, n: string, c: nat)
    requires Initial(w) && RowComesFirst(w, actions, s, tenant, k)
    requires n in Run(w, actions, s).nodes && c in Run(w, actions, s).nodes[n].calls
    requires Run(w, actions, s).nodes[n].calls[c].tenant == tenant && Run(w, actions, s).nodes[n].calls[c].Done?
    ensures Run(w, actions, s).nodes[n].calls[c].outcome != PlatformEngine
    ensures Run(w, actions, s).nodes[n].calls[c].outcome.StoreEngine? ==>
              Run(w, actions, s).nodes[n].calls[c].outcome.engine.tenant == tenant
  {
    var mid := Run(w, actions[..k], s);
    RunUntouched(w, actions[..k], s, tenant);
    assert Owned(mid, tenant);
    RunOwned(mid, actions[k..], s, tenant);
    assert actions[..k] + actions[k..] == actions;
    RunConcat(w, actions[..k], actions[k..], s);
  }

  /** The ordinary case: the tenant is created in the middle of a run, before anyone asks for it. */
  lemma CreatedBeforeItsLookups(w: World, before: seq<Action>, row: Record, later: seq<Action>, s: Settings, tenant: string)
    requires row.mode == TenantOwned
    requires forall a :: a in before ==> !LooksUp(a, tenant) && !(a.CreateTenant? && a.tenant == tenant)
    requires tenant !in w.planes
    ensures RowComesFirst(w, before + [CreateTenant(tenant, row)] + later, s, tenant, |before| + 1)
  {
    var create := CreateTenant(tenant, row);
    var actions := before + [create] + later;
    assert actions[..|before| + 1] == before + [create];
    RunConcat(w, before, [create], s);
    RowStaysAbsent(w, before, s, tenant);
    assert [create][1..] == [];
    assert Run(Run(w, before, s), [create], s) == Step(Run(w, before, s), create, s);
  }

  lemma {:induction false} RowStaysAbsent(w: World, actions: seq<Action>, s: Settings, tenant: string)
    requires tenant !in w.planes && forall a :: a in actions ==> !(a.CreateTenant? && a.tenant == tenant)
    ensures tenant !in Run(w, actions, s).planes
    decreases |actions|
  {
    if actions != [] { RowStaysAbsent(Step(w, actions[0], s), actions[1..], s, tenant); }
  }

  /** And the case of a row older than the processes. */
  lemma OwnedFromTheStart(w: World, actions: seq<Action>, s: Settings, tenant: string)
    requires tenant in w.planes && w.planes[tenant].mode == TenantOwned
    ensures RowComesFirst(w, actions, s, tenant, 0)
  {
    assert actions[..0] == [];
  }

  /** The row must come first: a lookup before the row exists caches the platform default, and a call
      within the TTL after a tenant-owned creation still gets the platform engine. */
  lemma EarlyLookupRoutesToPlatform(w: World, s: Settings, tenant: string, n: string, row: Record, d: nat)
    requires Initial(w) && tenant !in w.planes && n in w.nodes && row.mode == TenantOwned
    ensures var end := Run(w, [AtNode(n, Begin(0, tenant)), CreateTenant(tenant, row), Tick(d), AtNode(n, Begin(1, tenant))], s);
            && tenant in end.planes && end.planes[tenant] == row
            && n in end.nodes && 1 in end.nodes[n].calls
            && (end.nodes[n].calls[1] == Done(tenant, PlatformEngine) <==> d <= s.ttl)
  {
    var a, b, c, e := AtNode(n, Begin(0, tenant)), CreateTenant(tenant, row), Tick(d), AtNode(n, Begin(1, tenant));
    RunFour(w, a, b, c, e, s);
    var w1 := Step(w, a, s);
    assert w1.nodes[n].cache[tenant] == Cached(w.now, DEFAULT_RECORD);
  }

  lemma RunFour(w: World, a: Action, b: Action, c: Action, d: Action, s: Settings)
    ensures Run(w, [a, b, c, d], s) == Step(Step(Step(Step(w, a, s), b, s), c, s), d, s)
  {
    assert [a, b, c, d][1..] == [b, c, d];
    assert [b, c, d][1..] == [c, d];
    assert [c, d][1..] == [d];
    assert [d][1..] == [];
    var w2 := Step(Step(w, a, s), b, s);
    assert Run(w2, [c, d], s) == Run(Step(w2, c, s), [d], s) == Step(Step(w2, c, s), d, s);
  }
}
