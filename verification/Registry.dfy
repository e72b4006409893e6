/** The content-free document registry on the platform: best-effort writes after each tenant-store commit,
    and the reconciliation that re-derives a tenant's rows from its store. */
module Registry {

  import opened Wrappers

  /** What the registry and a store both say of one document; timestamps are not modelled. */
  datatype Row = Row(sourceType: string, status: string, size: Option<int>, checksum: Option<string>, retention: string)
  datatype Key = Key(tenant: string, document: string)
  datatype Document = Document(id: string, row: Row)

  /** How one write ends. A failed statement leaves the connection's transaction aborted, and nothing is
      rolled back; a failed commit ends the transaction. Either way the exception is swallowed. */
  datatype Outcome = Lands | StatementFails | CommitFails

  type Rows = map<Key, Row>

  /** The platform connection: the registry it sees, and whether its transaction is aborted. */
  datatype Conn = Conn(registry: Rows, aborted: bool)

  /** Insert, or on conflict update every column except the source type. */
  function Upserted(registry: Rows, key: Key, row: Row): Rows {
    registry[key := if key in registry then row.(sourceType := registry[key].sourceType) else row]
  }

  function StatusSet(registry: Rows, key: Key, status: string): Rows {
    if key in registry then registry[key := registry[key].(status := status)] else registry
  }

  function Written(c: Conn, changed: Rows, outcome: Outcome): Conn {
    if c.aborted then c
    else match outcome
      case Lands => c.(registry := changed)
      case StatementFails => c.(aborted := true)
      case CommitFails => c
  }

  function Recorded(c: Conn, tenant: string, d: Document, outcome: Outcome): Conn {
    Written(c, Upserted(c.registry, Key(tenant, d.id), d.row), outcome)
  }

  function RecordedAll(c: Conn, tenant: string, ds: seq<Document>, outcomes: seq<Outcome>): Conn
    requires |outcomes| == |ds|
  {
    if ds == [] then c
    else
      var last := |ds| - 1;
      Recorded(RecordedAll(c, tenant, ds[..last], outcomes[..last]), tenant, ds[last], outcomes[last])
  }

  /** What a sweep finds of a tenant's `documents`: no table, a table it cannot read, or its rows, with how
      each write of the reconciliation will end. */
  datatype Source = Absent | Drifted | Readable(documents: seq<Document>, outcomes: seq<Outcome>)

  predicate Paired(s: Source) {
    s.Readable? ==> |s.documents| == |s.outcomes|
  }

  type Sources = m: map<string, Source> | forall t :: t in m ==> Paired(m[t])

  function SourceOf(sources: Sources, tenant: string): (s: Source)
    ensures Paired(s)
  {
    if tenant in sources then sources[tenant] else Absent
  }

  /** One tenant's turn on a connection that can still run statements. */
  function Turn(c: Conn, tenant: string, s: Source): Conn
    requires Paired(s)
  {
    if s.Readable? then RecordedAll(c, tenant, s.documents, s.outcomes) else c
  }

  /** Every turn starts by asking for the table, which raises on an aborted connection. */
  function Swept(c: Conn, tenants: seq<string>, sources: Sources): Conn
    decreases |tenants|
  {
    if tenants == [] || c.aborted then c
    else Swept(Turn(c, tenants[0], SourceOf(sources, tenants[0])), tenants[1..], sources)
  }

  class PlatformConnection {
    var registry: Rows
    var aborted: bool

    constructor (registry: Rows)
      ensures this.registry == registry && !aborted
    {
      this.registry, aborted := registry, false;
    }

    function State(): Conn
      reads this
    {
      Conn(registry, aborted)
    }

    method RecordSync(tenant: string, d: Document, outcome: Outcome)
      modifies this
      ensures State() == Recorded(old(State()), tenant, d, outcome)
    {
      if aborted || outcome == CommitFails {
        return;
      }
      if outcome == StatementFails {
        aborted := true;
        return;
      }
      var key := Key(tenant, d.id);
      if key in registry {
        var row := registry[key];
        registry := registry[key := Row(row.sourceType, d.row.status, d.row.size, d.row.checksum, d.row.retention)];
      } else {
        registry := registry[key := d.row];
      }
    }

    method UpdateStatusSync(tenant: string, document: string, status: string, outcome: Outcome)
      modifies this
      ensures State() == Written(old(State()), StatusSet(old(registry), Key(tenant, document), status), outcome)
    {
      if aborted || outcome == CommitFails {
        return;
      }
      if outcome == StatementFails {
        aborted := true;
        return;
      }
      var key := Key(tenant, document);
      if key in registry {
        registry := registry[key := registry[key].(status := status)];
      }
    }

    /** The count returned is of the rows read, not of the writes that landed. */
    method ReconcileSchemaSync(tenant: string, ds: seq<Document>, outcomes: seq<Outcome>) returns (count: nat)
      requires |outcomes| == |ds|
      modifies this
      ensures State() == RecordedAll(old(State()), tenant, ds, outcomes)
      ensures count == |ds|
    {
      for i := 0 to |ds|
        invariant State() == RecordedAll(old(State()), tenant, ds[..i], outcomes[..i])
      {
        assert ds[..i + 1][..i] == ds[..i] && outcomes[..i + 1][..i] == outcomes[..i];
        RecordSync(tenant, ds[i], outcomes[i]);
      }
      assert ds[..|ds|] == ds && outcomes[..|ds|] == outcomes;
      return |ds|;
    }

    /** The sweep over platform tenants, all on this one connection. */
    method ReconcilePlatformTenants(tenants: seq<string>, sources: Sources)
      returns (reconciled: seq<string>, skipped: seq<string>, raised: bool)
      modifies this
      ensures State() == Swept(old(State()), tenants, sources)
      ensures raised == aborted
      ensures !raised ==> reconciled == Having(tenants, sources, true) && skipped == Having(tenants, sources, false)
    {
      reconciled, skipped := [], [];
      assert tenants[0..] == tenants;
      for i := 0 to |tenants|
        invariant Swept(old(State()), tenants, sources) == Swept(State(), tenants[i..], sources)
        invariant Having(tenants, sources, true) == reconciled + Having(tenants[i..], sources, true)
        invariant Having(tenants, sources, false) == skipped + Having(tenants[i..], sources, false)
      {
        if aborted {
          return reconciled, skipped, true;
        }
        TurnTaken(State(), tenants, i, sources, reconciled, skipped);
        var found := TakeTurn(tenants[i], SourceOf(sources, tenants[i]));
        if found == Some(true) {
          reconciled := reconciled + [tenants[i]];
        } else if found == Some(false) {
          skipped := skipped + [tenants[i]];
        }
      }
      return reconciled, skipped, aborted;
    }

    /** One tenant's turn: whether it is reconciled, skipped, or has no table. */
    method TakeTurn(tenant: string, s: Source) returns (found: Option<bool>)
      requires Paired(s)
      modifies this
      ensures State() == Turn(old(State()), tenant, s)
      ensures found == if s.Absent? then None else Some(s.Readable?)
    {
      match s
      case Absent =>
        return None;
      case Drifted =>
        return Some(false);
      case Readable(ds, outcomes) =>
        var _ := ReconcileSchemaSync(tenant, ds, outcomes);
        return Some(true);
    }
  }

  /** One tenant more on either list, or on none. */
  lemma TurnTaken(c: Conn, tenants: seq<string>, i: nat, sources: Sources, reconciled: seq<string>, skipped: seq<string>)
    requires i < |tenants| && !c.aborted
    ensures var s := SourceOf(sources, tenants[i]);
            && Swept(c, tenants[i..], sources) == Swept(Turn(c, tenants[i], s), tenants[i + 1..], sources)
            && reconciled + Having(tenants[i..], sources, true) ==
               (if s.Readable? then reconciled + [tenants[i]] else reconciled) + Having(tenants[i + 1..], sources, true)
            && skipped + Having(tenants[i..], sources, false) ==
               (if s.Drifted? then skipped + [tenants[i]] else skipped) + Having(tenants[i + 1..], sources, false)
  {
    assert tenants[i..][1..] == tenants[i + 1..];
    ListedOrNot(reconciled, tenants[i], Having(tenants[i + 1..], sources, true), SourceOf(sources, tenants[i]).Readable?);
    ListedOrNot(skipped, tenants[i], Having(tenants[i + 1..], sources, false), SourceOf(sources, tenants[i]).Drifted?);
  }

  lemma ListedOrNot(done: seq<string>, tenant: string, rest: seq<string>, listed: bool)
    ensures done + ((if listed then [tenant] else []) + rest) == (if listed then done + [tenant] else done) + rest
  {
  }

  /** The tenants of the list whose documents can be read, or those whose cannot. */
  function Having(tenants: seq<string>, sources: Sources, readable: bool): seq<string> {
    if tenants == [] then []
    else
      var s := SourceOf(sources, tenants[0]);
      (if (if readable then s.Readable? else s.Drifted?) then [tenants[0]] else []) + Having(tenants[1..], sources, readable)
  }

  lemma {:induction false} HavingIs(tenants: seq<string>, sources: Sources, readable: bool, tenant: string)
    ensures tenant in Having(tenants, sources, readable) <==>
            tenant in tenants && (if readable then SourceOf(sources, tenant).Readable? else SourceOf(sources, tenant).Drifted?)
  {
    if tenants != [] {
      assert tenants == [tenants[0]] + tenants[1..];
      HavingIs(tenants[1..], sources, readable, tenant);
    }
  }

  // ----- one reconciliation -----

  /** Whether the i-th write takes effect: it lands, and no statement before it failed. */
  predicate Lasts(outcomes: seq<Outcome>, i: nat)
    requires i < |outcomes|
  {
    outcomes[i] == Lands && forall j :: 0 <= j < i ==> outcomes[j] != StatementFails
  }

  predicate Distinct(ds: seq<Document>) {
    forall i, j :: 0 <= i < j < |ds| ==> ds[i].id != ds[j].id
  }

  predicate SameAt(a: Rows, b: Rows, key: Key) {
    (key in a <==> key in b) && (key in a ==> a[key] == b[key])
  }

  lemma {:induction false} AbortedIff(c: Conn, tenant: string, ds: seq<Document>, outcomes: seq<Outcome>)
    requires |outcomes| == |ds|
    ensures RecordedAll(c, tenant, ds, outcomes).aborted <==> c.aborted || StatementFails in outcomes
  {
    if ds != [] {
      var last := |ds| - 1;
      AbortedIff(c, tenant, ds[..last], outcomes[..last]);
      assert outcomes == outcomes[..last] + [outcomes[last]];
    }
  }

  lemma {:induction false} OthersUntouched(c: Conn, tenant: string, ds: seq<Document>, outcomes: seq<Outcome>, key: Key)
    requires |outcomes| == |ds|
    requires key.tenant != tenant || forall i :: 0 <= i < |ds| ==> ds[i].id != key.document
    ensures SameAt(RecordedAll(c, tenant, ds, outcomes).registry, c.registry, key)
  {
    if ds != [] { OthersUntouched(c, tenant, ds[..|ds| - 1], outcomes[..|ds| - 1], key); }
  }

  /** A document's row is written over what was there exactly when its own write lasts. */
  lemma {:induction false} RowWrittenIff(c: Conn, tenant: string, ds: seq<Document>, outcomes: seq<Outcome>, i: nat)
    requires |outcomes| == |ds| && Distinct(ds) && !c.aborted && i < |ds|
    ensures var after, key := RecordedAll(c, tenant, ds, outcomes).registry, Key(tenant, ds[i].id);
            SameAt(after, if Lasts(outcomes, i) then Upserted(c.registry, key, ds[i].row) else c.registry, key)
  {
    var last := |ds| - 1;
    var before := RecordedAll(c, tenant, ds[..last], outcomes[..last]);
    if i < last {
      RowWrittenIff(c, tenant, ds[..last], outcomes[..last], i);
      assert Lasts(outcomes, i) <==> Lasts(outcomes[..last], i);
    } else {
      OthersUntouched(c, tenant, ds[..last], outcomes[..last], Key(tenant, ds[i].id));
      AbortedIff(c, tenant, ds[..last], outcomes[..last]);
      assert StatementFails in outcomes[..last] <==> exists j :: 0 <= j < last && outcomes[j] == StatementFails;
    }
  }

  // ----- one sweep -----

  /** A tenant whose reconciliation has a failing statement stops the sweep: it raises, and no tenant after
      the first such is reached. */
  lemma {:induction false} SweepRaisesIff(c: Conn, tenants: seq<string>, sources: Sources)
    requires !c.aborted
    ensures Swept(c, tenants, sources).aborted <==>
              exists t :: t in tenants && SourceOf(sources, t).Readable? && StatementFails in SourceOf(sources, t).outcomes
    decreases |tenants|
  {
    if tenants != [] {
      var s := SourceOf(sources, tenants[0]);
      var next := Turn(c, tenants[0], s);
      if s.Readable? { AbortedIff(c, tenants[0], s.documents, s.outcomes); }
      assert tenants == [tenants[0]] + tenants[1..];
      if !next.aborted { SweepRaisesIff(next, tenants[1..], sources); }
    }
  }

  lemma {:induction false} SweepLeavesOthers(c: Conn, tenants: seq<string>, sources: Sources, key: Key)
    requires key.tenant !in tenants
    ensures SameAt(Swept(c, tenants, sources).registry, c.registry, key)
    decreases |tenants|
  {
    if tenants != [] && !c.aborted {
      var s := SourceOf(sources, tenants[0]);
      if s.Readable? { OthersUntouched(c, tenants[0], s.documents, s.outcomes, key); }
      SweepLeavesOthers(Turn(c, tenants[0], s), tenants[1..], sources, key);
    }
  }

  lemma {:induction false} SweptConcat(c: Conn, a: seq<string>, b: seq<string>, sources: Sources)
    ensures Swept(c, a + b, sources) == Swept(Swept(c, a, sources), b, sources)
    decreases |a|
  {
    if a == [] {
      assert a + b == b;
    } else if !c.aborted {
      assert (a + b)[0] == a[0] && (a + b)[1..] == a[1..] + b;
      SweptConcat(Turn(c, a[0], SourceOf(sources, a[0])), a[1..], b, sources);
    }
  }

  /** The tenants listed behind one with a failing statement are not reached: their rows stay. */
  lemma SweepStopsAtFailure(c: Conn, first: seq<string>, failing: string, rest: seq<string>, sources: Sources, key: Key)
    requires SourceOf(sources, failing).Readable? && StatementFails in SourceOf(sources, failing).outcomes
    requires key.tenant !in first && key.tenant != failing
    ensures SameAt(Swept(c, first + [failing] + rest, sources).registry, c.registry, key)
  {
    var upTo := Swept(c, first + [failing], sources);
    SweptConcat(c, first + [failing], rest, sources);
    SweepLeavesOthers(c, first + [failing], sources, key);
    if !c.aborted {
      assert failing in first + [failing];
      SweepRaisesIff(c, first + [failing], sources);
    }
    assert upTo.aborted;
  }
}
