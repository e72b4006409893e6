/** The control-plane record of a tenant's data plane: lookup through a short-TTL cache, and
    compare-and-set status transitions. */
module DataPlane {
  import opened Wrappers

  datatype Mode = PlatformMode | TenantOwned

  datatype Status =
    | AwaitingStore | Provisioning | ProvisioningFailed | Ready | MigrationRequired | Paused | StoreRetired

  /** One row of `public.tenant_data_planes`, as far as a record carries it. */
  datatype Record = Record(mode: Mode, status: Status, connectionId: Option<string>, reason: string, health: string)

  type Planes = map<string, Record>

  /** `_default_platform_record`: a missing row reads as a ready platform tenant. */
  const DEFAULT_RECORD := Record(PlatformMode, Ready, None, "none", "")

  function Selected(planes: Planes, tenant: string): Record {
    if tenant in planes then planes[tenant] else DEFAULT_RECORD
  }

  // ----- the TTL cache -----

  datatype Cached = Cached(fetchedAt: int, record: Record)

  type Cache = map<string, Cached>

  /** A cached record that is still fresh at `now`. */
  function CacheGet(cache: Cache, tenant: string, now: int, ttl: nat): Option<Record> {
    if tenant in cache && now - cache[tenant].fetchedAt <= ttl then Some(cache[tenant].record) else None
  }

  /** `get_data_plane_record`: what it returns, and the cache it leaves. */
  function Lookup(cache: Cache, planes: Planes, tenant: string, now: int, ttl: nat): (Record, Cache) {
    match CacheGet(cache, tenant, now, ttl)
    case Some(r) => (r, cache)
    case None => (Selected(planes, tenant), cache[tenant := Cached(now, Selected(planes, tenant))])
  }

  /** `_Cache`. */
  class RecordCache {
    const ttl: nat
    var entries: Cache

    constructor (ttl: nat)
      ensures this.ttl == ttl && entries == map[]
    {
      this.ttl := ttl;
      entries := map[];
    }

    method Get(tenant: string, now: int) returns (record: Option<Record>)
      ensures record == CacheGet(entries, tenant, now, ttl)
    {
      if tenant !in entries {
        return None;
      }
      if now - entries[tenant].fetchedAt > ttl {
        return None;
      }
      return Some(entries[tenant].record);
    }

    method Put(tenant: string, record: Record, now: int)
      modifies this
      ensures entries == old(entries)[tenant := Cached(now, record)]
    {
      entries := entries[tenant := Cached(now, record)];
    }

    method Invalidate(tenant: string)
      modifies this
      ensures entries == old(entries) - {tenant}
    {
      entries := entries - {tenant};
    }
  }

  /** A record put at `at` is what a lookup finds up to a TTL later, and no longer; other tenants' entries
      are untouched, and once invalidated the tenant's is gone. */
  lemma PutIsFound(cache: Cache, tenant: string, record: Record, at: int, now: int, ttl: nat, other: string)
    ensures var after := cache[tenant := Cached(at, record)];
            && CacheGet(after, other, now, ttl) == (if other == tenant then if now - at <= ttl then Some(record) else None
                                                    else CacheGet(cache, other, now, ttl))
            && CacheGet(after - {tenant}, other, now, ttl) == (if other == tenant then None else CacheGet(cache, other, now, ttl))
  {
  }

  // ----- transitions -----

  datatype Transition =
    | MarkPaused
    | MarkProvisioning(connectionId: string)
    | MarkReadyFromPaused
    | MarkRetired
    | ProvisioningOutcome(ready: bool, outcomeReason: string)

  function Expected(t: Transition): set<Status> {
    match t
    case MarkPaused => {Ready}
    case MarkProvisioning(_) => {AwaitingStore, ProvisioningFailed}
    case MarkReadyFromPaused => {Paused}
    case MarkRetired => {Ready, Paused, MigrationRequired, ProvisioningFailed}
    case ProvisioningOutcome(_, _) => {Provisioning}
  }

  function Updated(r: Record, t: Transition): Record {
    match t
    case MarkPaused => r.(status := Paused, reason := "connection_paused")
    case MarkProvisioning(c) => r.(status := Provisioning, reason := "activation_enqueued", connectionId := Some(c))
    case MarkReadyFromPaused => r.(status := Ready, reason := "reactivated")
    case MarkRetired => r.(status := StoreRetired, reason := "retired")
    case ProvisioningOutcome(ready, why) => r.(status := if ready then Ready else ProvisioningFailed, reason := why)
  }

  /** Whether the compare-and-set moves the row. */
  predicate Moves(planes: Planes, tenant: string, t: Transition) {
    tenant in planes && planes[tenant].status in Expected(t)
  }

  function Transitioned(planes: Planes, tenant: string, t: Transition): Planes {
    if Moves(planes, tenant, t) then planes[tenant := Updated(planes[tenant], t)] else planes
  }

  /** The control-plane table together with the acting process's cache. */
  class ControlPlane {
    var planes: Planes
    const cache: RecordCache

    constructor (planes: Planes, cache: RecordCache)
      ensures this.planes == planes && this.cache == cache
    {
      this.planes := planes;
      this.cache := cache;
    }

    /** `_cas_status`: one conditional update, and invalidation only if the row moved. */
    method CasStatus(tenant: string, expected: set<Status>, newStatus: Status, reason: string, bind: Option<string>)
      returns (moved: bool)
      modifies this, cache
      ensures moved == (tenant in old(planes) && old(planes)[tenant].status in expected)
      ensures planes == if moved
                        then old(planes)[tenant := old(planes)[tenant].(status := newStatus, reason := reason,
                               connectionId := if bind.Some? then bind else old(planes)[tenant].connectionId)]
                        else old(planes)
      ensures cache.entries == if moved then old(cache.entries) - {tenant} else old(cache.entries)
    {
      moved := false;
      if tenant in planes && planes[tenant].status in expected {
        var row := planes[tenant].(status := newStatus, reason := reason);
        if bind.Some? {
          row := row.(connectionId := bind);
        }
        planes := planes[tenant := row];
        moved := true;
      }
      if moved {
        cache.Invalidate(tenant);
      }
    }

    /** `mark_paused`, `mark_provisioning`, `mark_ready_from_paused`, `mark_retired`, and the outcome of
        provisioning. */
    method Mark(tenant: string, t: Transition) returns (moved: bool)
      modifies this, cache
      ensures moved == Moves(old(planes), tenant, t)
      ensures planes == Transitioned(old(planes), tenant, t)
      ensures moved ==> tenant !in cache.entries
    {
      match t
      case MarkPaused =>
        moved := CasStatus(tenant, {Ready}, Paused, "connection_paused", None);
      case MarkProvisioning(c) =>
        moved := CasStatus(tenant, {AwaitingStore, ProvisioningFailed}, Provisioning, "activation_enqueued", Some(c));
      case MarkReadyFromPaused =>
        moved := CasStatus(tenant, {Paused}, Ready, "reactivated", None);
      case MarkRetired =>
        moved := CasStatus(tenant, {Ready, Paused, MigrationRequired, ProvisioningFailed}, StoreRetired, "retired", None);
      case ProvisioningOutcome(ready, why) =>
        moved := CasStatus(tenant, {Provisioning}, if ready then Ready else ProvisioningFailed, why, None);
    }

    /** `get_data_plane_record`. */
    method GetDataPlaneRecord(tenant: string, now: int) returns (record: Record)
      modifies cache
      ensures (record, cache.entries) == Lookup(old(cache.entries), planes, tenant, now, cache.ttl)
    {
      var cached := cache.Get(tenant, now);
      if cached.Some? {
        return cached.value;
      }
      record := if tenant in planes then planes[tenant] else DEFAULT_RECORD;
      cache.Put(tenant, record, now);
    }
  }
}
