/** The bounded LRU of tenant-store engines, and what a resolver keeps true of it. */
module EngineCache {

  import opened Wrappers

  /** `(tenant_id, connection_id, connection.updated_at)`. */
  datatype Key = Key(tenant: string, connectionId: string, version: string)

  /** An engine, told apart by its serial number, with what it was built from. */
  datatype Engine = Engine(serial: nat, tenant: string, configuration: string, secrets: string)

  datatype Entry = Entry(key: Key, engine: Engine)

  // ----- the cache as a sequence of entries, oldest first -----

  function Keys(es: seq<Entry>): seq<Key> {
    if es == [] then [] else [es[0].key] + Keys(es[1..])
  }

  function Find(es: seq<Entry>, key: Key): Option<Engine> {
    if es == [] then None else if es[0].key == key then Some(es[0].engine) else Find(es[1..], key)
  }

  function Without(es: seq<Entry>, key: Key): seq<Entry> {
    if es == [] then []
    else if es[0].key == key then Without(es[1..], key)
    else [es[0]] + Without(es[1..], key)
  }

  function Appended(es: seq<Entry>, key: Key, engine: Engine): seq<Entry> {
    Without(es, key) + [Entry(key, engine)]
  }

  function Kept(es: seq<Entry>, tenant: string): seq<Entry> {
    if es == [] then []
    else (if es[0].key.tenant == tenant then [] else [es[0]]) + Kept(es[1..], tenant)
  }

  function Popped(es: seq<Entry>, tenant: string): seq<Engine> {
    if es == [] then []
    else (if es[0].key.tenant == tenant then [es[0].engine] else []) + Popped(es[1..], tenant)
  }

  /** The cached engines, with their multiplicity. */
  function Engines(es: seq<Entry>): multiset<Engine> {
    if es == [] then multiset{} else multiset{es[0].engine} + Engines(es[1..])
  }

  /** What one process holds: the cache, every engine it ever built, every engine it ever gave to
      `dispose`. */
  datatype Process = Process(entries: seq<Entry>, built: seq<Engine>, disposed: seq<Engine>)

  const EMPTY_PROCESS := Process([], [], [])

  /** Lines 222 to 243 of the resolver: hit and refresh, or build, put and dispose the evicted. */
  function Resolved(p: Process, key: Key, engine: Engine, maxSize: int): Process {
    match Find(p.entries, key)
    case Some(e) => p.(entries := Appended(p.entries, key, e))
    case None =>
      var es := Appended(p.entries, key, engine);
      if |es| > maxSize
      then Process(es[1..], p.built + [engine], p.disposed + [es[0].engine])
      else Process(es, p.built + [engine], p.disposed)
  }

  function Invalidated(p: Process, tenant: string): Process {
    p.(entries := Kept(p.entries, tenant), disposed := p.disposed + Popped(p.entries, tenant))
  }

  /** `_EngineLRU`. The ordered dictionary is its entries in order. */
  class EngineLru {
    const maxSize: int
    var entries: seq<Entry>

    constructor (maxSize: int)
      ensures this.maxSize == maxSize && entries == []
    {
      this.maxSize := maxSize;
      entries := [];
    }

    method Get(key: Key) returns (engine: Option<Engine>)
      modifies this
      ensures engine == Find(old(entries), key)
      ensures entries == if engine.Some? then Appended(old(entries), key, engine.value) else old(entries)
    {
      engine := Find(entries, key);
      if engine.Some? {
        entries := Without(entries, key) + [Entry(key, engine.value)];
      }
    }

    method Put(key: Key, engine: Engine) returns (evicted: Option<Engine>)
      modifies this
      ensures var es := Appended(old(entries), key, engine);
              if |es| > maxSize then entries == es[1..] && evicted == Some(es[0].engine)
              else entries == es && evicted == None
    {
      entries := Without(entries, key) + [Entry(key, engine)];
      evicted := None;
      if |entries| > maxSize {
        evicted := Some(entries[0].engine);
        entries := entries[1..];
      }
    }

    method PopAllForTenant(tenant: string) returns (engines: seq<Engine>)
      modifies this
      ensures entries == Kept(old(entries), tenant)
      ensures engines == Popped(old(entries), tenant)
    {
      engines := [];
      var kept := [];
      assert entries[0..] == entries;
      for i := 0 to |entries|
        invariant entries == old(entries)
        invariant Kept(entries, tenant) == kept + Kept(entries[i..], tenant)
        invariant Popped(entries, tenant) == engines + Popped(entries[i..], tenant)
      {
        assert entries[i..][1..] == entries[i + 1..];
        if entries[i].key.tenant == tenant {
          engines := engines + [entries[i].engine];
        } else {
          kept := kept + [entries[i]];
        }
      }
      entries := kept;
    }
  }

  /** The engine half of one `EngineResolver`: the LRU of one driver and the logs of what was built
      and disposed. The async and the sync resolver each hold one. */
  class EngineStore {
    const lru: EngineLru
    var built: seq<Engine>
    var disposed: seq<Engine>

    constructor (maxSize: int)
      ensures fresh(lru) && lru.maxSize == maxSize && State() == EMPTY_PROCESS
    {
      lru := new EngineLru(maxSize);
      built, disposed := [], [];
    }

    function State(): Process
      reads this, lru
    {
      Process(lru.entries, built, disposed)
    }

    /** The tail of `resolve`, from the cache lookup on, when building the engine succeeds. */
    method Resolve(key: Key, build: Engine) returns (engine: Engine)
      modifies this, lru
      ensures State() == Resolved(old(State()), key, build, lru.maxSize)
      ensures engine == match Find(old(lru.entries), key) case Some(e) => e case None => build
    {
      var cached := lru.Get(key);
      if cached.Some? {
        return cached.value;
      }
      built := built + [build];
      var evicted := lru.Put(key, build);
      if evicted.Some? {
        disposed := disposed + [evicted.value];
      }
      return build;
    }

    /** `invalidate_tenant`. */
    method InvalidateTenant(tenant: string)
      modifies this, lru
      ensures State() == Invalidated(old(State()), tenant)
    {
      var engines := lru.PopAllForTenant(tenant);
      assert engines[..|engines|] == engines;
      for i := 0 to |engines|
        invariant built == old(built) && lru.entries == Kept(old(lru.entries), tenant)
        invariant disposed == old(disposed) + engines[..i]
      {
        disposed := disposed + [engines[i]];
      }
    }
  }

  // ----- laws of the sequence operations -----

  predicate DistinctKeys(es: seq<Entry>) {
    forall i, j :: 0 <= i < j < |es| ==> es[i].key != es[j].key
  }

  lemma {:induction false} KeysPointwise(es: seq<Entry>)
    ensures |Keys(es)| == |es|
    ensures forall i :: 0 <= i < |es| ==> Keys(es)[i] == es[i].key
  {
    if es != [] { KeysPointwise(es[1..]); }
  }

  lemma {:induction false} FindMember(es: seq<Entry>, key: Key)
    ensures Find(es, key).Some? <==> key in Keys(es)
    ensures Find(es, key).Some? ==> Entry(key, Find(es, key).value) in es
  {
    if es != [] {
      FindMember(es[1..], key);
    }
  }

  lemma {:induction false} WithoutMembers(es: seq<Entry>, key: Key)
    ensures forall e :: e in Without(es, key) <==> e in es && e.key != key
    ensures |Without(es, key)| <= |es|
  {
    if es != [] {
      WithoutMembers(es[1..], key);
      assert es == [es[0]] + es[1..];
    }
  }

  lemma {:induction false} WithoutDistinct(es: seq<Entry>, key: Key)
    requires DistinctKeys(es)
    ensures DistinctKeys(Without(es, key))
  {
    if es != [] {
      WithoutDistinct(es[1..], key);
      WithoutMembers(es[1..], key);
      var rest := Without(es[1..], key);
      forall i | 0 <= i < |rest| ensures rest[i].key != es[0].key {
        assert rest[i] in es[1..];
        var k :| 0 <= k < |es[1..]| && es[1..][k] == rest[i];
      }
    }
  }

  lemma {:induction false} WithoutAbsent(es: seq<Entry>, key: Key)
    requires key !in Keys(es)
    ensures Without(es, key) == es
  {
    if es != [] {
      WithoutAbsent(es[1..], key);
    }
  }

  lemma {:induction false} WithoutPresent(es: seq<Entry>, key: Key, engine: Engine)
    requires DistinctKeys(es) && Find(es, key) == Some(engine)
    ensures Engines(Without(es, key)) + multiset{engine} == Engines(es)
    ensures |Without(es, key)| == |es| - 1
  {
    if es[0].key == key {
      KeysPointwise(es[1..]);
      assert forall i :: 0 <= i < |es[1..]| ==> es[1..][i] == es[i + 1];
      WithoutAbsent(es[1..], key);
    } else {
      WithoutPresent(es[1..], key, engine);
    }
  }

  lemma {:induction false} FindWithout(es: seq<Entry>, key: Key, other: Key)
    ensures Find(Without(es, key), other) == if other == key then None else Find(es, other)
  {
    if es != [] { FindWithout(es[1..], key, other); }
  }

  lemma {:induction false} FindConcat(es: seq<Entry>, fs: seq<Entry>, key: Key)
    ensures Find(es + fs, key) == if Find(es, key).Some? then Find(es, key) else Find(fs, key)
  {
    if es == [] {
      assert es + fs == fs;
    } else {
      assert (es + fs)[1..] == es[1..] + fs;
      FindConcat(es[1..], fs, key);
    }
  }

  lemma {:induction false} WithoutConcat(es: seq<Entry>, fs: seq<Entry>, key: Key)
    ensures Without(es + fs, key) == Without(es, key) + Without(fs, key)
  {
    if es == [] {
      assert es + fs == fs;
    } else {
      assert (es + fs)[0] == es[0] && (es + fs)[1..] == es[1..] + fs;
      WithoutConcat(es[1..], fs, key);
    }
  }

  lemma {:induction false} WithoutTwice(es: seq<Entry>, key: Key)
    ensures Without(Without(es, key), key) == Without(es, key)
  {
    if es != [] { WithoutTwice(es[1..], key); }
  }

  /** Touching a key makes it the most recent and finds the engine there; every other key finds what it
      found, and the others keep their order. */
  lemma TouchKeeps(es: seq<Entry>, key: Key, engine: Engine, other: Key)
    requires DistinctKeys(es)
    ensures var after := Appended(es, key, engine);
            && after[|after| - 1] == Entry(key, engine) && DistinctKeys(after)
            && Find(after, other) == (if other == key then Some(engine) else Find(es, other))
            && Without(after, key) == Without(es, key)
            && |after| == if Find(es, key).Some? then |es| else |es| + 1
  {
    var rest, last := Without(es, key), [Entry(key, engine)];
    DistinctAppended(es, key, engine);
    FindConcat(rest, last, other);
    FindWithout(es, key, other);
    WithoutConcat(rest, last, key);
    WithoutTwice(es, key);
    assert Without(last, key) == [];
    assert last[1..] == [];
    if Find(es, key).Some? {
      WithoutPresent(es, key, Find(es, key).value);
    } else {
      FindMember(es, key);
      WithoutAbsent(es, key);
    }
  }

  /** The entry given up when the cache is over its bound is the oldest, and only its key is lost. */
  lemma EvictionLosesOldest(es: seq<Entry>, other: Key)
    requires DistinctKeys(es) && es != []
    ensures Find(es[1..], other) == if other == es[0].key then None else Find(es, other)
    ensures Find(es, es[0].key) == Some(es[0].engine) && DistinctKeys(es[1..])
  {
    assert es == [es[0]] + es[1..];
    FindMember(es[1..], es[0].key);
    KeysPointwise(es[1..]);
  }

  lemma {:induction false} KeptMembers(es: seq<Entry>, tenant: string)
    ensures forall e :: e in Kept(es, tenant) <==> e in es && e.key.tenant != tenant
    ensures |Kept(es, tenant)| <= |es|
  {
    if es != [] {
      KeptMembers(es[1..], tenant);
      assert es == [es[0]] + es[1..];
    }
  }

  lemma {:induction false} KeptPopped(es: seq<Entry>, tenant: string)
    ensures Engines(Kept(es, tenant)) + multiset(Popped(es, tenant)) == Engines(es)
  {
    if es != [] {
      KeptPopped(es[1..], tenant);
      if es[0].key.tenant == tenant {
        assert [] + Kept(es[1..], tenant) == Kept(es[1..], tenant);
      } else {
        assert Kept(es, tenant)[1..] == Kept(es[1..], tenant);
      }
    }
  }

  lemma {:induction false} KeptDistinct(es: seq<Entry>, tenant: string)
    requires DistinctKeys(es)
    ensures DistinctKeys(Kept(es, tenant))
  {
    if es != [] {
      KeptDistinct(es[1..], tenant);
      KeptMembers(es[1..], tenant);
      var rest := Kept(es[1..], tenant);
      forall i | 0 <= i < |rest| ensures rest[i].key != es[0].key {
        assert rest[i] in es[1..];
        var k :| 0 <= k < |es[1..]| && es[1..][k] == rest[i];
      }
    }
  }

  // ----- conservation -----

  function Cap(maxSize: int): nat {
    if maxSize < 0 then 0 else maxSize
  }

  /** The bound holds, and every engine built is cached or disposed, exactly once. */
  predicate Conserved(p: Process, maxSize: int) {
    && |p.entries| <= Cap(maxSize)
    && DistinctKeys(p.entries)
    && multiset(p.built) == Engines(p.entries) + multiset(p.disposed)
  }

  lemma ResolveConserves(p: Process, key: Key, engine: Engine, maxSize: int)
    requires Conserved(p, maxSize)
    ensures Conserved(Resolved(p, key, engine, maxSize), maxSize)
  {
    match Find(p.entries, key) {
      case Some(e) => HitConserves(p, key, e);
      case None =>
        MissConserves(p, key, engine);
        var oldest := Appended(p.entries, key, engine)[0].engine;
        assert multiset(p.built + [engine]) == multiset(p.built) + multiset{engine};
        assert multiset(p.disposed + [oldest]) == multiset(p.disposed) + multiset{oldest};
        Exchange(multiset(p.built), Engines(p.entries), multiset(p.disposed), engine,
          Engines(Appended(p.entries, key, engine)[1..]), oldest);
    }
  }

  lemma Exchange(built: multiset<Engine>, cached: multiset<Engine>, disposed: multiset<Engine>, engine: Engine,
    left: multiset<Engine>, oldest: Engine)
    requires built == cached + disposed
    requires cached + multiset{engine} == left + multiset{oldest}
    ensures built + multiset{engine} == left + (disposed + multiset{oldest})
    ensures built + multiset{engine} == (cached + multiset{engine}) + disposed
  {
    assert (cached + disposed) + multiset{engine} == (cached + multiset{engine}) + disposed;
    assert (left + multiset{oldest}) + disposed == left + (disposed + multiset{oldest});
  }

  lemma HitConserves(p: Process, key: Key, engine: Engine)
    requires DistinctKeys(p.entries) && Find(p.entries, key) == Some(engine)
    ensures DistinctKeys(Appended(p.entries, key, engine)) && |Appended(p.entries, key, engine)| == |p.entries|
    ensures Engines(Appended(p.entries, key, engine)) == Engines(p.entries)
  {
    WithoutPresent(p.entries, key, engine);
    AppendEngines(Without(p.entries, key), key, engine);
    DistinctAppended(p.entries, key, engine);
  }

  lemma MissConserves(p: Process, key: Key, engine: Engine)
    requires DistinctKeys(p.entries) && Find(p.entries, key).None?
    ensures var es := Appended(p.entries, key, engine);
            && DistinctKeys(es) && DistinctKeys(es[1..]) && |es| == |p.entries| + 1
            && Engines(es) == Engines(p.entries) + multiset{engine}
            && Engines(es) == Engines(es[1..]) + multiset{es[0].engine}
  {
    FindMember(p.entries, key);
    WithoutAbsent(p.entries, key);
    AppendEngines(p.entries, key, engine);
    DistinctAppended(p.entries, key, engine);
    var es := Appended(p.entries, key, engine);
  }

  lemma {:induction false} AppendEngines(es: seq<Entry>, key: Key, engine: Engine)
    ensures Engines(es + [Entry(key, engine)]) == Engines(es) + multiset{engine}
    ensures Keys(es + [Entry(key, engine)]) == Keys(es) + [key]
  {
    if es == [] {
      assert [Entry(key, engine)][1..] == [];
      assert [] + [Entry(key, engine)] == [Entry(key, engine)];
    } else {
      assert (es + [Entry(key, engine)])[1..] == es[1..] + [Entry(key, engine)];
      AppendEngines(es[1..], key, engine);
    }
  }

  lemma DistinctAppended(es: seq<Entry>, key: Key, engine: Engine)
    requires DistinctKeys(es)
    ensures DistinctKeys(Appended(es, key, engine))
  {
    WithoutDistinct(es, key);
    WithoutMembers(es, key);
    forall i | 0 <= i < |Without(es, key)| ensures Without(es, key)[i].key != key {
      assert Without(es, key)[i] in Without(es, key);
    }
  }

  lemma InvalidateConserves(p: Process, tenant: string, maxSize: int)
    requires Conserved(p, maxSize)
    ensures Conserved(Invalidated(p, tenant), maxSize)
    ensures forall e :: e in Invalidated(p, tenant).entries ==> e.key.tenant != tenant
  {
    KeptPopped(p.entries, tenant);
    KeptMembers(p.entries, tenant);
    KeptDistinct(p.entries, tenant);
  }

  datatype Operation = ResolveKey(key: Key, engine: Engine) | InvalidateTenantOp(tenant: string)

  function After(p: Process, ops: seq<Operation>, maxSize: int): Process {
    if ops == [] then p
    else
      var before := After(p, ops[..|ops| - 1], maxSize);
      match ops[|ops| - 1]
      case ResolveKey(key, engine) => Resolved(before, key, engine, maxSize)
      case InvalidateTenantOp(tenant) => Invalidated(before, tenant)
  }

  /** After any run of resolves and invalidations. */
  lemma {:induction false} RunConserves(ops: seq<Operation>, maxSize: int)
    ensures Conserved(After(EMPTY_PROCESS, ops, maxSize), maxSize)
  {
    if ops != [] {
      RunConserves(ops[..|ops| - 1], maxSize);
      var before := After(EMPTY_PROCESS, ops[..|ops| - 1], maxSize);
      match ops[|ops| - 1] {
        case ResolveKey(key, engine) => ResolveConserves(before, key, engine, maxSize);
        case InvalidateTenantOp(tenant) => InvalidateConserves(before, tenant, maxSize);
      }
    }
  }

  /** The engine handed to the caller is the one now cached under the key exactly when the cache can
      hold anything; with no capacity it has already been disposed. */
  lemma ReturnedEngineLiveIff(p: Process, key: Key, engine: Engine, maxSize: int)
    requires Conserved(p, maxSize)
    ensures var returned := match Find(p.entries, key) case Some(e) => e case None => engine;
            && (Entry(key, returned) in Resolved(p, key, engine, maxSize).entries <==> maxSize >= 1)
            && (maxSize < 1 ==> returned in Resolved(p, key, engine, maxSize).disposed)
  {
    FindMember(p.entries, key);
    WithoutMembers(p.entries, key);
    if maxSize < 1 {
      assert p.entries == [];
    } else {
      var returned := match Find(p.entries, key) case Some(e) => e case None => engine;
      var es := Appended(p.entries, key, returned);
      assert es[|es| - 1] == Entry(key, returned);
      if Find(p.entries, key).None? && |es| > maxSize { assert es[1..][|es| - 2] == Entry(key, returned); }
    }
  }

  // ----- the trace specification -----

  /** Each key once, at its last occurrence. */
  function KeepLast(ks: seq<Key>): seq<Key> {
    if ks == [] then [] else if ks[0] in ks[1..] then KeepLast(ks[1..]) else [ks[0]] + KeepLast(ks[1..])
  }

  function LastN(ks: seq<Key>, n: nat): seq<Key> {
    if |ks| <= n then ks else ks[|ks| - n..]
  }

  function Remove(ks: seq<Key>, k: Key): seq<Key> {
    if ks == [] then [] else if ks[0] == k then Remove(ks[1..], k) else [ks[0]] + Remove(ks[1..], k)
  }

  /** The keys resolved, in order. */
  function KeysOf(ops: seq<Operation>): seq<Key> {
    if ops == [] then []
    else KeysOf(ops[..|ops| - 1]) + if ops[|ops| - 1].ResolveKey? then [ops[|ops| - 1].key] else []
  }

  lemma {:induction false} KeepLastMembers(ks: seq<Key>)
    ensures forall k :: k in KeepLast(ks) <==> k in ks
    ensures forall i, j :: 0 <= i < j < |KeepLast(ks)| ==> KeepLast(ks)[i] != KeepLast(ks)[j]
  {
    if ks != [] {
      KeepLastMembers(ks[1..]);
      assert ks == [ks[0]] + ks[1..];
    }
  }

  lemma {:induction false} RemoveAbsent(ks: seq<Key>, k: Key)
    requires k !in ks
    ensures Remove(ks, k) == ks
  {
    if ks != [] {
      assert ks == [ks[0]] + ks[1..];
      RemoveAbsent(ks[1..], k);
    }
  }

  lemma {:induction false} KeepLastAppend(ks: seq<Key>, k: Key)
    ensures KeepLast(ks + [k]) == Remove(KeepLast(ks), k) + [k]
  {
    if ks == [] {
      assert [k][1..] == [];
      assert [] + [k] == [k];
    } else {
      assert (ks + [k])[1..] == ks[1..] + [k];
      KeepLastAppend(ks[1..], k);
      KeepLastMembers(ks[1..]);
      if ks[0] !in ks[1..] {
        if ks[0] == k {
          assert KeepLast(ks)[1..] == KeepLast(ks[1..]);
        } else {
          assert KeepLast(ks)[1..] == KeepLast(ks[1..]);
          assert [ks[0]] + (Remove(KeepLast(ks[1..]), k) + [k]) == ([ks[0]] + Remove(KeepLast(ks[1..]), k)) + [k];
        }
      }
    }
  }

  lemma {:induction false} RemoveConcat(ks: seq<Key>, ls: seq<Key>, k: Key)
    ensures Remove(ks + ls, k) == Remove(ks, k) + Remove(ls, k)
  {
    if ks == [] {
      assert ks + ls == ls;
    } else {
      assert (ks + ls)[1..] == ks[1..] + ls;
      RemoveConcat(ks[1..], ls, k);
    }
  }

  lemma {:induction false} RemoveLength(ks: seq<Key>, k: Key)
    requires forall i, j :: 0 <= i < j < |ks| ==> ks[i] != ks[j]
    ensures |Remove(ks, k)| == if k in ks then |ks| - 1 else |ks|
  {
    if ks != [] {
      assert ks == [ks[0]] + ks[1..];
      if ks[0] == k { RemoveAbsent(ks[1..], k); } else { RemoveLength(ks[1..], k); }
    }
  }

  /** One LRU access on the last `n` of a recency list is the last `n` of the updated list. */
  lemma LastNStep(ks: seq<Key>, k: Key, n: nat)
    requires forall i, j :: 0 <= i < j < |ks| ==> ks[i] != ks[j]
    ensures LastN(Remove(ks, k) + [k], n) ==
            if k in LastN(ks, n) then Remove(LastN(ks, n), k) + [k] else LastN(LastN(ks, n) + [k], n)
  {
    var tail := LastN(ks, n);
    var head := ks[..|ks| - |tail|];
    assert ks == head + tail;
    RemoveConcat(head, tail, k);
    if k in tail {
      SplitDistinct(head, tail, k);
      LastNHit(head, tail, k, n);
    } else {
      LastNMiss(head, tail, k, n);
    }
  }

  lemma SplitDistinct(head: seq<Key>, tail: seq<Key>, k: Key)
    requires forall i, j :: 0 <= i < j < |head + tail| ==> (head + tail)[i] != (head + tail)[j]
    requires k in tail
    ensures k !in head
    ensures forall i, j :: 0 <= i < j < |tail| ==> tail[i] != tail[j]
  {
    var j :| 0 <= j < |tail| && tail[j] == k;
    assert forall i :: 0 <= i < |tail| ==> tail[i] == (head + tail)[|head| + i];
    assert forall i :: 0 <= i < |head| ==> head[i] == (head + tail)[i];
    assert (head + tail)[|head| + j] == k;
  }

  lemma LastNHit(head: seq<Key>, tail: seq<Key>, k: Key, n: nat)
    requires k in tail && k !in head && (|tail| == n || (|tail| < n && head == []))
    requires forall i, j :: 0 <= i < j < |tail| ==> tail[i] != tail[j]
    ensures LastN(Remove(head, k) + Remove(tail, k) + [k], n) == Remove(tail, k) + [k]
  {
    RemoveAbsent(head, k);
    RemoveLength(tail, k);
    var r := Remove(tail, k) + [k];
    assert head + Remove(tail, k) + [k] == head + r;
    if |tail| == n { assert LastN(head + r, n) == r; } else { assert head + r == r; }
  }

  lemma LastNMiss(head: seq<Key>, tail: seq<Key>, k: Key, n: nat)
    requires k !in tail && (|tail| == n || (|tail| < n && head == []))
    ensures LastN(Remove(head, k) + Remove(tail, k) + [k], n) == LastN(tail + [k], n)
  {
    RemoveAbsent(tail, k);
    var h := Remove(head, k);
    var r := tail + [k];
    assert h + tail + [k] == h + r;
    if |tail| == n {
      assert h + r == (h + [r[0]]) + r[1..];
      assert LastN((h + [r[0]]) + r[1..], n) == r[1..];
      assert r == [r[0]] + r[1..];
      assert LastN([r[0]] + r[1..], n) == r[1..];
    } else {
      assert h + r == r;
    }
  }

  lemma {:induction false} WithoutKeys(es: seq<Entry>, key: Key)
    ensures Keys(Without(es, key)) == Remove(Keys(es), key)
  {
    if es != [] {
      WithoutKeys(es[1..], key);
      assert Keys(es)[1..] == Keys(es[1..]);
      if es[0].key != key { assert Without(es, key)[1..] == Without(es[1..], key); }
    }
  }

  lemma ResolvedKeys(p: Process, key: Key, engine: Engine, maxSize: int)
    requires |p.entries| <= Cap(maxSize)
    ensures Keys(Resolved(p, key, engine, maxSize).entries) ==
            if key in Keys(p.entries) then Remove(Keys(p.entries), key) + [key]
            else LastN(Keys(p.entries) + [key], Cap(maxSize))
  {
    FindMember(p.entries, key);
    WithoutKeys(p.entries, key);
    var e := match Find(p.entries, key) case Some(e) => e case None => engine;
    var es := Appended(p.entries, key, e);
    AppendEngines(Without(p.entries, key), key, e);
    KeysPointwise(es);
    if key !in Keys(p.entries) {
      RemoveAbsent(Keys(p.entries), key);
      WithoutAbsent(p.entries, key);
      if |es| > maxSize { assert Keys(es)[1..] == Keys(es[1..]); }
    }
  }

  lemma TraceStep(p: Process, ks: seq<Key>, key: Key, engine: Engine, maxSize: int)
    requires |p.entries| <= Cap(maxSize) && Keys(p.entries) == LastN(KeepLast(ks), Cap(maxSize))
    ensures Keys(Resolved(p, key, engine, maxSize).entries) == LastN(KeepLast(ks + [key]), Cap(maxSize))
  {
    ResolvedKeys(p, key, engine, maxSize);
    KeepLastAppend(ks, key);
    KeepLastMembers(ks);
    LastNStep(KeepLast(ks), key, Cap(maxSize));
  }

  /** Without invalidations the cache holds exactly the most recently resolved distinct keys, as
      many as fit, in recency order. */
  lemma {:induction false} CacheIsMostRecent(ops: seq<Operation>, maxSize: int)
    requires forall op :: op in ops ==> op.ResolveKey?
    ensures Keys(After(EMPTY_PROCESS, ops, maxSize).entries) == LastN(KeepLast(KeysOf(ops)), Cap(maxSize))
  {
    if ops != [] {
      var init, last := ops[..|ops| - 1], ops[|ops| - 1];
      assert last in ops;
      CacheIsMostRecent(init, maxSize);
      RunConserves(init, maxSize);
      TraceStep(After(EMPTY_PROCESS, init, maxSize), KeysOf(init), last.key, last.engine, maxSize);
    }
  }
}
