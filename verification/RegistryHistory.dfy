/** Runs of ingests, status changes, deletions and registry writes that arrive late, out of order or never,
    and what one reconciliation makes of the registry after any of them. */
module RegistryHistory {

  import opened Registry

  /** A registry write on its way: the store's commit is behind it, its own is not. */
  datatype Write = Record(key: Key, row: Row) | Status(key: Key, status: string)

  /** `stores`: every tenant's documents. `origins`: the source type of every document ever ingested. */
  datatype World = World(stores: map<Key, Row>, origins: map<Key, string>, registry: Rows, inFlight: multiset<Write>)

  datatype Event =
    | Ingest(key: Key, row: Row)
    | ChangeStatus(key: Key, status: string)
    | HardDelete(key: Key)
    | Deliver(write: Write)
    | Lose(write: Write)
    | Reread(key: Key)

  function Applied(registry: Rows, w: Write): Rows {
    match w
    case Record(key, row) => Upserted(registry, key, row)
    case Status(key, status) => StatusSet(registry, key, status)
  }

  /** Document identifiers are never reused. `Reread`: a reconciliation has read the document's row and its
      write is on its way. */
  function Step(w: World, e: Event): World {
    match e
    case Ingest(key, row) =>
      if key in w.origins then w
      else w.(stores := w.stores[key := row], origins := w.origins[key := row.sourceType],
              inFlight := w.inFlight + multiset{Record(key, row)})
    case ChangeStatus(key, status) =>
      if key !in w.stores then w
      else w.(stores := w.stores[key := w.stores[key].(status := status)], inFlight := w.inFlight + multiset{Status(key, status)})
    case HardDelete(key) => w.(stores := w.stores - {key})
    case Deliver(write) =>
      if write !in w.inFlight then w
      else w.(registry := Applied(w.registry, write), inFlight := w.inFlight - multiset{write})
    case Lose(write) =>
      if write !in w.inFlight then w else w.(inFlight := w.inFlight - multiset{write})
    case Reread(key) =>
      if key !in w.stores then w else w.(inFlight := w.inFlight + multiset{Record(key, w.stores[key])})
  }

  function Steps(w: World, es: seq<Event>): World {
    if es == [] then w else Step(Steps(w, es[..|es| - 1]), es[|es| - 1])
  }

  predicate Initial(w: World) {
    w.stores == map[] && w.origins == map[] && w.registry == map[] && w.inFlight == multiset{}
  }

  predicate Typed(rows: map<Key, Row>, origins: map<Key, string>) {
    forall key :: key in rows ==> key in origins && rows[key].sourceType == origins[key]
  }

  predicate FlightTyped(inFlight: multiset<Write>, origins: map<Key, string>) {
    forall x :: x in inFlight && x.Record? ==> x.key in origins && x.row.sourceType == origins[x.key]
  }

  /** The source type is the same wherever the document is written down. */
  predicate Sound(w: World) {
    Typed(w.stores, w.origins) && Typed(w.registry, w.origins) && FlightTyped(w.inFlight, w.origins)
  }

  lemma StepTyped(w: World, e: Event)
    requires Sound(w)
    ensures Typed(Step(w, e).stores, Step(w, e).origins) && Typed(Step(w, e).registry, Step(w, e).origins)
  {
  }

  lemma StepFlight(w: World, e: Event)
    requires Sound(w)
    ensures FlightTyped(Step(w, e).inFlight, Step(w, e).origins)
  {
    var after := Step(w, e);
    forall x | x in after.inFlight && x.Record? ensures x.key in after.origins && x.row.sourceType == after.origins[x.key] {
      if x in w.inFlight { assert x.key in w.origins; }
    }
  }

  lemma {:induction false} AlwaysSound(w: World, es: seq<Event>)
    requires Initial(w)
    ensures Sound(Steps(w, es))
  {
    if es != [] {
      AlwaysSound(w, es[..|es| - 1]);
      StepTyped(Steps(w, es[..|es| - 1]), es[|es| - 1]);
      StepFlight(Steps(w, es[..|es| - 1]), es[|es| - 1]);
    }
  }

  /** The rows a reconciliation of the tenant reads, in any order. */
  predicate Lists(ds: seq<Document>, stores: map<Key, Row>, tenant: string) {
    && Distinct(ds)
    && (forall i :: 0 <= i < |ds| ==> Key(tenant, ds[i].id) in stores && stores[Key(tenant, ds[i].id)] == ds[i].row)
    && (forall key :: key in stores && key.tenant == tenant ==> exists i :: 0 <= i < |ds| && ds[i].id == key.document)
  }

  /** A run on a clean connection with nothing in between. */
  function Reconciled(w: World, tenant: string, ds: seq<Document>, outcomes: seq<Outcome>): Rows
    requires |outcomes| == |ds|
  {
    RecordedAll(Conn(w.registry, false), tenant, ds, outcomes).registry
  }

  /** A document's registry row agrees with the store afterwards exactly when its own write lasts or it
      agreed before. */
  lemma RowAgreesIff(w: World, es: seq<Event>, tenant: string, ds: seq<Document>, outcomes: seq<Outcome>, i: nat)
    requires Initial(w) && Lists(ds, Steps(w, es).stores, tenant) && |outcomes| == |ds| && i < |ds|
    ensures var before, key := Steps(w, es), Key(tenant, ds[i].id);
            SameAt(Reconciled(before, tenant, ds, outcomes), before.stores, key) <==>
            Lasts(outcomes, i) || SameAt(before.registry, before.stores, key)
  {
    AlwaysSound(w, es);
    RowWrittenIff(Conn(Steps(w, es).registry, false), tenant, ds, outcomes, i);
  }

  /** After any run, whatever was lost, late or out of order, one reconciliation whose writes all land and
      which nothing interleaves makes every stored document's row agree with the store, the source type,
      which it never updates, included; other tenants' rows, and the rows of documents the store no longer
      has, stay as they were. */
  lemma ReconciliationRepairs(w: World, es: seq<Event>, tenant: string, ds: seq<Document>, outcomes: seq<Outcome>, key: Key)
    requires Initial(w) && Lists(ds, Steps(w, es).stores, tenant) && |outcomes| == |ds|
    requires forall i :: 0 <= i < |outcomes| ==> outcomes[i] == Lands
    ensures var before := Steps(w, es);
            SameAt(Reconciled(before, tenant, ds, outcomes),
                   if key.tenant == tenant && key in before.stores then before.stores else before.registry, key)
  {
    var before := Steps(w, es);
    if key.tenant == tenant && key in before.stores {
      var i :| 0 <= i < |ds| && ds[i].id == key.document;
      assert Lasts(outcomes, i);
      RowAgreesIff(w, es, tenant, ds, outcomes, i);
    } else {
      forall i | 0 <= i < |ds| && key.tenant == tenant ensures ds[i].id != key.document {
        assert Key(tenant, ds[i].id) in before.stores;
      }
      OthersUntouched(Conn(before.registry, false), tenant, ds, outcomes, key);
    }
  }

  /** So the tenant's part of the registry is its store exactly when no document that left the store had a
      row: reconciliation adds and updates, and never removes. */
  lemma RegistryIsStoreIff(w: World, es: seq<Event>, tenant: string, ds: seq<Document>, outcomes: seq<Outcome>)
    requires Initial(w) && Lists(ds, Steps(w, es).stores, tenant) && |outcomes| == |ds|
    requires forall i :: 0 <= i < |outcomes| ==> outcomes[i] == Lands
    ensures var before := Steps(w, es); var after := Reconciled(before, tenant, ds, outcomes);
            (forall key: Key :: key.tenant == tenant ==> SameAt(after, before.stores, key)) <==>
            (forall key: Key :: key.tenant == tenant && key in before.registry ==> key in before.stores)
  {
    var before := Steps(w, es);
    forall key: Key | key.tenant == tenant
      ensures SameAt(Reconciled(before, tenant, ds, outcomes), if key in before.stores then before.stores else before.registry, key)
    {
      ReconciliationRepairs(w, es, tenant, ds, outcomes, key);
    }
  }

  /** Once a row agrees, a status write that arrives late leaves it so exactly when it says what the store
      says now: an interleaved write can undo a reconciliation. */
  lemma LateStatusKeepsIff(w: World, key: Key, status: string)
    requires key in w.stores && SameAt(w.registry, w.stores, key) && Status(key, status) in w.inFlight
    ensures SameAt(Step(w, Deliver(Status(key, status))).registry, w.stores, key) <==> status == w.stores[key].status
  {
    var row := w.registry[key].(status := status);
    assert Step(w, Deliver(Status(key, status))).registry[key] == row;
    assert row == w.stores[key] <==> row.status == w.stores[key].status;
  }
}
