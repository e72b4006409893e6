/** Whole histories of one tenant schema: catalog edits, projection writes and reconciles. */
module ReconcileHistory {
  import opened Identifiers
  import opened Catalog
  import opened ColumnNames
  import opened Reconcile
  import opened ReconcileLaws
  import opened QuerySurface

  /** The catalog and the schema it describes. */
  datatype World = World(catalog: seq<Definition>, db: Db)

  /** A new catalog may differ from the old in anything: creation, deactivation, cardinality flips,
      `value_kind` edits and definitions that vanish. A change commits it together with its reconcile, or not
      at all, as on the platform; an edit commits it alone, as for a tenant with its own store. A write puts
      any rows that fit into a table. */
  datatype Event =
    | Change(catalog: seq<Definition>)
    | Edit(catalog: seq<Definition>)
    | ReconcileNow
    | WriteRows(table: string, rows: seq<Row>)

  predicate Legal(e: Event) {
    e.Change? || e.Edit? ==> ValidCatalog(e.catalog)
  }

  function Step(w: World, e: Event): World {
    match e
    case Change(catalog) =>
      (match Reconciled(w.db, catalog)
       case Err(_) => w
       case Ok(db) => World(catalog, db))
    case Edit(catalog) => w.(catalog := catalog)
    case ReconcileNow =>
      (match Reconciled(w.db, w.catalog)
       case Err(_) => w
       case Ok(db) => w.(db := db))
    case WriteRows(t, rows) =>
      if t in w.db.tables && Table(w.db.tables[t].columns, rows).Conforms()
      then w.(db := w.db.(tables := w.db.tables[t := Table(w.db.tables[t].columns, rows)]))
      else w
  }

  function Run(w: World, es: seq<Event>): World
    decreases |es|
  {
    if es == [] then w else Run(Step(w, es[0]), es[1..])
  }

  /** A freshly provisioned schema: no generated table yet. */
  predicate Fresh(w: World) {
    ValidCatalog(w.catalog) && SUBJECT_TABLE_NAME !in w.db.indexes && forall t :: t in w.db.tables ==> !IsRelation(t)
  }

  predicate Sound(w: World) {
    ValidCatalog(w.catalog) && Shaped(w.db)
  }

  /** No table, column or index is gone. */
  predicate Retains(db: Db, after: Db) {
    && db.indexes <= after.indexes
    && forall t :: t in db.tables ==> t in after.tables && db.tables[t].columns.Keys <= after.tables[t].columns.Keys
  }

  /** Every table but `subject` is as it was; `subject` keeps its rows, columns and cells, but for the cells
      of the cleared columns, which are NULL. */
  predicate OnlyClears(db: Db, after: Db, cleared: set<string>) {
    && db.indexes <= after.indexes
    && forall t :: t in db.tables ==>
         && t in after.tables
         && if t == SUBJECT_TABLE_NAME then Keeps(db.tables[t], after.tables[t], cleared) else after.tables[t] == db.tables[t]
  }

  /** The catalog an event reconciles with, if it is one that reconciles. */
  predicate Reconciles(e: Event) {
    e.Change? || e.ReconcileNow?
  }

  function CatalogOf(w: World, e: Event): seq<Definition> {
    if e.Change? then e.catalog else w.catalog
  }

  /** The `subject` columns one event retypes. */
  function ClearedAt(w: World, e: Event): set<string> {
    var catalog := CatalogOf(w, e);
    if Reconciles(e) && w.db.hasEntityStore && Reconciled(w.db, catalog).Ok? && SubjectColumns(catalog).Ok?
    then ClearedBy(RetypedColumns(w.db, catalog))
    else {}
  }

  /** Those the reconciles of a run retype. */
  function ClearedOver(w: World, es: seq<Event>): set<string>
    decreases |es|
  {
    if es == [] then {} else ClearedAt(w, es[0]) + ClearedOver(Step(w, es[0]), es[1..])
  }

  lemma ReconciledUnlessRefused(w: World, e: Event)
    requires Sound(w) && Legal(e) && Reconciles(e)
    ensures var catalog := CatalogOf(w, e);
            && (Reconciled(w.db, catalog).Ok? <==> !w.db.hasEntityStore || Acceptable(w.db, catalog))
            && (Reconciled(w.db, catalog).Ok? ==>
                  var after := Reconciled(w.db, catalog).value;
                  && Shaped(after) && OnlyClears(w.db, after, ClearedAt(w, e))
                  && after.hasEntityStore == w.db.hasEntityStore && after.reserved == w.db.reserved)
  {
    var catalog := CatalogOf(w, e);
    SubjectIsConforming(w.db);
    if w.db.hasEntityStore {
      ReconcileRefusedIff(w.db, catalog);
      if Acceptable(w.db, catalog) { ReconcileEffect(w.db, catalog); }
    }
  }

  lemma SubjectIsConforming(db: Db)
    requires Shaped(db)
    ensures SUBJECT_TABLE_NAME in db.tables ==> Keeps(db.tables[SUBJECT_TABLE_NAME], db.tables[SUBJECT_TABLE_NAME], {})
  {
    if SUBJECT_TABLE_NAME in db.tables { assert ShapedTable(SUBJECT_TABLE_NAME, db.tables[SUBJECT_TABLE_NAME]); }
  }

  lemma StepSound(w: World, e: Event)
    requires Sound(w) && Legal(e)
    ensures Sound(Step(w, e))
    ensures Retains(w.db, Step(w, e).db)
    ensures Step(w, e).db.hasEntityStore == w.db.hasEntityStore && Step(w, e).db.reserved == w.db.reserved
  {
    if Reconciles(e) { ReconciledUnlessRefused(w, e); }
  }

  lemma StepOnlyClears(w: World, e: Event)
    requires Sound(w) && Legal(e) && !e.WriteRows?
    ensures OnlyClears(w.db, Step(w, e).db, ClearedAt(w, e))
  {
    SubjectIsConforming(w.db);
    if Reconciles(e) { ReconciledUnlessRefused(w, e); }
  }

  lemma {:induction false} RunSound(w: World, es: seq<Event>)
    requires Sound(w) && forall e :: e in es ==> Legal(e)
    ensures Sound(Run(w, es))
    ensures Retains(w.db, Run(w, es).db)
    ensures Run(w, es).db.hasEntityStore == w.db.hasEntityStore && Run(w, es).db.reserved == w.db.reserved
    decreases |es|
  {
    if es != [] {
      assert es[0] in es;
      StepSound(w, es[0]);
      RunSound(Step(w, es[0]), es[1..]);
    }
  }

  lemma {:induction false} RunConcat(w: World, es: seq<Event>, fs: seq<Event>)
    ensures Run(w, es + fs) == Run(Run(w, es), fs)
    decreases |es|
  {
    if es == [] {
      assert es + fs == fs;
    } else {
      assert (es + fs)[1..] == es[1..] + fs;
      RunConcat(Step(w, es[0]), es[1..], fs);
    }
  }

  /** Right after every reconcile of every history that starts without generated tables, the
      surface of the current catalog is physically there, or the reconcile was refused and changed
      nothing. It is refused exactly when an owning definition is malformed, some column of the layout is not
      a name the server takes unquoted, or an index has the name of a child table to be created. */
  lemma SurfaceAfterEveryReconcile(w: World, es: seq<Event>)
    requires Fresh(w) && w.db.hasEntityStore && forall e :: e in es ==> Legal(e)
    ensures var before, after := Run(w, es), Run(w, es + [ReconcileNow]);
            && after.catalog == before.catalog && before.db.hasEntityStore && before.db.reserved == w.db.reserved
            && (Reconciled(before.db, before.catalog).Err? <==>
                  !WellNamed(before.catalog) || !BareNamed(before.catalog, w.db.reserved) || !Creatable(before.db, before.catalog))
            && if Reconciled(before.db, before.catalog).Ok? then SurfacePresent(after.db, after.catalog) else after == before
  {
    RunSound(w, es);
    RunConcat(w, es, [ReconcileNow]);
    var before := Run(w, es);
    assert Run(before, [ReconcileNow]) == Step(before, ReconcileNow) by { assert [ReconcileNow][1..] == []; }
    ReconciledUnlessRefused(before, ReconcileNow);
    if Acceptable(before.db, before.catalog) {
      ReconcileEffect(before.db, before.catalog);
      SettledHasSurface(Step(before, ReconcileNow).db, before.catalog);
    }
  }

  lemma DigitIdentifierIsNotBare(ds: seq<Definition>, d: Definition, reserved: set<string>)
    requires ValidCatalog(ds) && d in ds && Owns(d, CARDINALITY_SINGLE) && |d.identifier| > 2 && '0' <= d.identifier[2] <= '9'
    ensures !BareNamed(ds, reserved)
  {
    if SubjectColumns(ds).Ok? {
      SubjectColumnsDistinct(ds);
      ColumnNamesAre(ds);
      var c :| c in SubjectColumns(ds).value && c.definition == d;
      var i :| 0 <= i < |SubjectColumns(ds).value| && SubjectColumns(ds).value[i] == c;
      assert !IsBare(SubjectColumns(ds).value[i].name, reserved);
    }
  }

  /** An ordinary name is enough, "2024 Revenue" say: while an active single definition was given its
      identifier for a name that begins with a digit, every reconcile fails, on every server, and changes
      nothing; and a change to such a catalog is not committed. */
  lemma DigitNameRefusesEveryReconcile(w: World, d: Definition, name: string, taken: set<string>, committed: seq<Definition>)
    requires Sound(w) && w.db.hasEntityStore && d in w.catalog && Owns(d, CARDINALITY_SINGLE)
    requires d.identifier == SqlIdentifier(name, taken) && |taken| + 2 < Pow10(59)
    requires name != "" && '0' <= name[0] <= '9'
    ensures Reconciled(w.db, w.catalog).Err? && Step(w, ReconcileNow) == w
    ensures Step(World(committed, w.db), Change(w.catalog)) == World(committed, w.db)
  {
    IdentifierKeepsDigit(name, taken);
    DigitIdentifierIsNotBare(w.catalog, d, w.db.reserved);
    ReconcileRefusedIff(w.db, w.catalog);
  }

  const REVENUE := Definition("2024 Revenue", "e_2024_revenue", CARDINALITY_SINGLE, "money", true)

  /** The catalog with that one definition is valid, and its identifier well formed. */
  lemma RevenueIsRefused(db: Db)
    requires Shaped(db) && db.hasEntityStore
    ensures ValidCatalog([REVENUE]) && WellNamed([REVENUE])
    ensures Reconciled(db, [REVENUE]).Err?
  {
    RevenueCatalog();
    DigitIdentifierIsNotBare([REVENUE], REVENUE, db.reserved);
    ReconcileRefusedIff(db, [REVENUE]);
  }

  lemma RevenueCatalog()
    ensures ValidCatalog([REVENUE]) && WellNamed([REVENUE])
    ensures REVENUE in [REVENUE] && Owns(REVENUE, CARDINALITY_SINGLE)
    ensures |REVENUE.identifier| > 2 && '0' <= REVENUE.identifier[2] <= '9'
  {
    assert REVENUE.identifier[2..] == "2024_revenue" && |"2024_revenue"| == 12;
  }

  const ORDER := Definition("Order", "e_order", CARDINALITY_SINGLE, "text", true)

  lemma OrderCatalog()
    ensures ValidCatalog([ORDER]) && WellNamed([ORDER]) && SubjectColumns([ORDER]).Ok?
  {
    assert ORDER.identifier[2..] == "order" && |"order"| == 5;
    SubjectColumnsDistinct([ORDER]);
  }

  lemma OrderColumn() returns (c: SubjectColumn)
    ensures SubjectColumns([ORDER]).Ok? && c in SubjectColumns([ORDER]).value
    ensures forall e :: e in SubjectColumns([ORDER]).value ==> e.name == "order"
  {
    OrderCatalog();
    SubjectColumnsDistinct([ORDER]);
    ColumnNamesAre([ORDER]);
    assert Stripped(ORDER) == "order" && |"order"| == 5 && |"document_id"| == 11 && |"filename"| == 8;
    assert ORDER in [ORDER];
    c :| c in SubjectColumns([ORDER]).value && c.definition == ORDER;
  }

  lemma OrderIsCreatable(db: Db)
    ensures Creatable(db, [ORDER])
  {
    assert CARDINALITY_MULTI[0] != CARDINALITY_SINGLE[0];
    NoneActive([ORDER], CARDINALITY_MULTI);
  }

  /** So is "Order" by a server that reserves the word. */
  lemma OrderIsRefusedIff(db: Db)
    requires Shaped(db) && db.hasEntityStore
    ensures ValidCatalog([ORDER]) && WellNamed([ORDER])
    ensures Reconciled(db, [ORDER]).Err? <==> "order" in db.reserved
  {
    OrderCatalog();
    var c := OrderColumn();
    OrderIsCreatable(db);
    ReconcileRefusedIff(db, [ORDER]);
    var i :| 0 <= i < |SubjectColumns([ORDER]).value| && SubjectColumns([ORDER]).value[i] == c;
    assert IsBare(SubjectColumns([ORDER]).value[i].name, db.reserved) <==> "order" !in db.reserved;
  }

  const FOO := Definition("Foo", "e_foo", CARDINALITY_MULTI, "text", true)
  const FOO_PKEY := Definition("Foo Pkey", "e_foo_pkey", CARDINALITY_MULTI, "text", true)

  lemma FooPair()
    ensures ValidCatalog([FOO, FOO_PKEY]) && WellNamed([FOO, FOO_PKEY])
    ensures Active([FOO, FOO_PKEY], CARDINALITY_MULTI) == [FOO, FOO_PKEY]
    ensures forall reserved :: BareNamed([FOO, FOO_PKEY], reserved)
  {
    FooNames();
    ActivePair(FOO, FOO_PKEY, "_pkey", CARDINALITY_MULTI);
    NoSingles([FOO, FOO_PKEY]);
  }

  lemma FooNames()
    ensures IsGenerated(FOO.identifier) && IsGenerated(FOO_PKEY.identifier) && FOO_PKEY.identifier == FOO.identifier + "_pkey"
    ensures |FOO.identifier| == 5 && |FOO_PKEY.identifier| == 10
  {
    assert FOO.identifier[2..] == "foo" && FOO_PKEY.identifier[2..] == "foo_pkey" && |"foo_pkey"| == 8;
  }

  lemma NoSingles(ds: seq<Definition>)
    requires forall d :: d in ds ==> d.cardinality == CARDINALITY_MULTI
    ensures SubjectColumns(ds) == Ok([]) && forall reserved :: BareNamed(ds, reserved)
  {
    assert CARDINALITY_MULTI[0] != CARDINALITY_SINGLE[0];
    NoneActive(ds, CARDINALITY_SINGLE);
  }

  lemma FooKey(db: Db)
    requires !IsTaken(db, "e_foo_pkey")
    ensures KeyName(db, "e_foo") == "e_foo_pkey"
  {
    assert KeyNumber(0) == "";
    assert "_pkey" + "" == "_pkey";
    assert KeyCandidate("e_foo", 0) == "e_foo" + "_pkey" == "e_foo_pkey";
    assert |"e_foo"| == 5 && |"e_foo_pkey"| == 10;
  }

  /** The names "Foo" and "Foo Pkey" do not go together: the key of the one table has the name of the other.
      They do if the second table is there already. */
  lemma FooPairIsRefusedIff(db: Db)
    requires Shaped(db) && db.hasEntityStore && ("e_foo" in db.tables || "e_foo" !in db.indexes)
    ensures ValidCatalog([FOO, FOO_PKEY]) && WellNamed([FOO, FOO_PKEY])
    ensures Reconciled(db, [FOO, FOO_PKEY]).Err? <==>
              "e_foo_pkey" !in db.tables && ("e_foo_pkey" in db.indexes || "e_foo" !in db.tables)
  {
    FooPair();
    ReconcileRefusedIff(db, [FOO, FOO_PKEY]);
    var next := WithChild(db, "e_foo");
    ChildEffect(db, "e_foo");
    assert [FOO, FOO_PKEY][1..] == [FOO_PKEY] && [FOO_PKEY][1..] == [];
    assert IsClear(WithChild(next, "e_foo_pkey"), []);
    assert IsClear(next, [FOO_PKEY]) <==> "e_foo_pkey" in next.tables || "e_foo_pkey" !in next.indexes;
    assert "e_foo_pkey" in next.tables <==> "e_foo_pkey" in db.tables by { assert |"e_foo"| == 5 && |"e_foo_pkey"| == 10; }
    assert IsGenerated("e_foo_pkey");
    if "e_foo_pkey" in next.indexes { ChildIndexOrigin(db, "e_foo", "e_foo_pkey"); }
    if !IsTaken(db, "e_foo_pkey") { FooKey(db); }
  }

  // ----- committed together -----

  /** The schema is what the committed catalog asks for. */
  predicate InStep(w: World) {
    WellNamed(w.catalog) && BareNamed(w.catalog, w.db.reserved) && Settled(w.db, w.catalog)
  }

  lemma ChangeInStep(w: World, e: Event)
    requires Sound(w) && Legal(e) && w.db.hasEntityStore && Reconciles(e) && Reconciled(w.db, CatalogOf(w, e)).Ok?
    ensures InStep(Step(w, e))
  {
    ReconciledUnlessRefused(w, e);
    ReconcileEffect(w.db, CatalogOf(w, e));
  }

  lemma StepInStep(w: World, e: Event)
    requires Sound(w) && Legal(e) && w.db.hasEntityStore && InStep(w) && !e.Edit?
    ensures InStep(Step(w, e))
  {
    if Reconciles(e) && Reconciled(w.db, CatalogOf(w, e)).Ok? { ChangeInStep(w, e); }
  }

  lemma {:induction false} RunInStep(w: World, es: seq<Event>)
    requires Sound(w) && w.db.hasEntityStore && InStep(w) && forall e :: e in es ==> Legal(e) && !e.Edit?
    ensures InStep(Run(w, es))
    decreases |es|
  {
    if es != [] {
      assert es[0] in es;
      StepSound(w, es[0]);
      StepInStep(w, es[0]);
      RunInStep(Step(w, es[0]), es[1..]);
    }
  }

  /** Where a catalog commits only together with its reconcile, the surface of the committed catalog is
      physically there at every moment from the first reconcile that goes through on, whatever is refused or
      written afterwards. */
  lemma SurfaceFromFirstReconcileOn(w: World, es: seq<Event>, first: Event, fs: seq<Event>)
    requires Fresh(w) && w.db.hasEntityStore && (forall e :: e in es + fs ==> Legal(e)) && Legal(first)
    requires Reconciles(first) && Reconciled(Run(w, es).db, CatalogOf(Run(w, es), first)).Ok?
    requires forall e :: e in fs ==> !e.Edit?
    ensures var end := Run(Step(Run(w, es), first), fs); SurfacePresent(end.db, end.catalog)
  {
    assert forall e :: e in es ==> e in es + fs;
    assert forall e :: e in fs ==> e in es + fs;
    RunSound(w, es);
    var before := Run(w, es);
    ChangeInStep(before, first);
    StepSound(before, first);
    RunInStep(Step(before, first), fs);
    RunSound(Step(before, first), fs);
    var end := Run(Step(before, first), fs);
    SettledHasSurface(end.db, end.catalog);
  }

  /** Nothing generated is ever dropped, whatever happens to its definition later. */
  lemma NothingDropped(w: World, es: seq<Event>, fs: seq<Event>)
    requires Fresh(w) && forall e :: e in es + fs ==> Legal(e)
    ensures Retains(Run(w, es).db, Run(w, es + fs).db)
  {
    assert forall e :: e in es ==> e in es + fs;
    assert forall e :: e in fs ==> e in es + fs;
    RunSound(w, es);
    RunConcat(w, es, fs);
    RunSound(Run(w, es), fs);
  }

  lemma OnlyClearsTransitive(a: Db, b: Db, c: Db, r1: set<string>, r2: set<string>)
    requires OnlyClears(a, b, r1) && OnlyClears(b, c, r2)
    ensures OnlyClears(a, c, r1 + r2)
  {
    if SUBJECT_TABLE_NAME in a.tables {
      KeepsTransitive(a.tables[SUBJECT_TABLE_NAME], b.tables[SUBJECT_TABLE_NAME], c.tables[SUBJECT_TABLE_NAME], r1, r2);
    }
  }

  lemma {:induction false} RunOnlyClears(w: World, es: seq<Event>)
    requires Sound(w) && forall e :: e in es ==> Legal(e) && !e.WriteRows?
    ensures OnlyClears(w.db, Run(w, es).db, ClearedOver(w, es))
    decreases |es|
  {
    if es == [] {
      SubjectIsConforming(w.db);
    } else {
      assert es[0] in es;
      var next := Step(w, es[0]);
      StepSound(w, es[0]);
      StepOnlyClears(w, es[0]);
      RunOnlyClears(next, es[1..]);
      OnlyClearsTransitive(w.db, next.db, Run(w, es).db, ClearedAt(w, es[0]), ClearedOver(next, es[1..]));
    }
  }

  /** Between writes, no sequence of edits and reconciles touches any table but `subject`, or removes a
      row; a cell of `subject` changes only to NULL, and only in a column some reconcile of the run
      retypes. */
  lemma NoRowLost(w: World, es: seq<Event>, fs: seq<Event>)
    requires Fresh(w) && (forall e :: e in es + fs ==> Legal(e)) && forall e :: e in fs ==> !e.WriteRows?
    ensures OnlyClears(Run(w, es).db, Run(w, es + fs).db, ClearedOver(Run(w, es), fs))
  {
    assert forall e :: e in es ==> e in es + fs;
    assert forall e :: e in fs ==> e in es + fs;
    RunSound(w, es);
    RunConcat(w, es, fs);
    RunOnlyClears(Run(w, es), fs);
  }

  /** A column is cleared over a run exactly if, at some reconcile of it, the column was there at another
      type than the one the catalog of that moment declares for it. */
  lemma {:induction false} ClearedOverIff(w: World, es: seq<Event>, column: string)
    requires Sound(w) && forall e :: e in es ==> Legal(e)
    ensures column in ClearedOver(w, es) <==> exists k :: 0 <= k < |es| && RetypedNow(Run(w, es[..k]), es[k], column)
    decreases |es|
  {
    if es != [] {
      assert es[0] in es;
      var next, rest := Step(w, es[0]), es[1..];
      StepSound(w, es[0]);
      ClearedOverIff(next, rest, column);
      ClearedNowIff(w, es[0], column);
      assert Run(w, es[..0]) == w;
      forall k | 1 <= k < |es| ensures Run(w, es[..k]) == Run(next, rest[..k - 1]) && es[k] == rest[k - 1] {
        assert es[..k][1..] == rest[..k - 1];
      }
      if j :| 0 <= j < |rest| && RetypedNow(Run(next, rest[..j]), rest[j], column) {
        assert RetypedNow(Run(w, es[..j + 1]), es[j + 1], column);
      }
    }
  }

  /** A reconcile goes through and finds the column at another type than declared. */
  predicate RetypedNow(w: World, e: Event, column: string) {
    && Reconciles(e) && w.db.hasEntityStore && Acceptable(w.db, CatalogOf(w, e)) && SUBJECT_TABLE_NAME in w.db.tables
    && column in w.db.tables[SUBJECT_TABLE_NAME].columns
    && exists c :: c in SubjectColumns(CatalogOf(w, e)).value && c.name == column
                   && w.db.tables[SUBJECT_TABLE_NAME].columns[column] != c.columnType
  }

  lemma ClearedNowIff(w: World, e: Event, column: string)
    requires Sound(w) && Legal(e)
    ensures column in ClearedAt(w, e) <==> RetypedNow(w, e, column)
  {
    if Reconciles(e) {
      ReconciledUnlessRefused(w, e);
      if w.db.hasEntityStore && Acceptable(w.db, CatalogOf(w, e)) { RetypedIff(w.db, CatalogOf(w, e), column); }
    }
  }

  /** The generated tables present fall into the surface, the retained and the orphaned: disjoint,
      and together all of them. */
  lemma PresentTablesPartition(ds: seq<Definition>, existing: set<string>, actual: map<string, string>)
    requires ValidCatalog(ds) && WellNamed(ds)
    ensures ReconcilePlan(ds, existing, actual).Ok?
    ensures var plan := ReconcilePlan(ds, existing, actual).value;
            var surface := GeneratedNames(existing) * ExpectedTables(ds);
            && GeneratedNames(existing) == surface + plan.offSurface + plan.orphans
            && surface !! plan.offSurface !! plan.orphans
  {
    PlanSucceedsIff(ds, existing, actual);
    RenderableSame(ds);
    ActiveMembers(ds, CARDINALITY_MULTI);
    NamedMembers(ds);
    assert ExpectedTables(ds) <= CataloguedTables(Named(ds));
    var plan := ReconcilePlan(ds, existing, actual).value;
    var present, catalogued, expected := GeneratedNames(existing), CataloguedTables(Named(ds)), ExpectedTables(Named(ds));
    assert expected == ExpectedTables(ds);
    assert plan.orphans == present - catalogued && plan.offSurface == present * catalogued - expected;
    ThreeParts(present, catalogued, expected);
  }

  /** A definition of the catalog has the table's name. */
  predicate IsCatalogued(ds: seq<Definition>, t: string) {
    exists d :: d in ds && d.identifier == t
  }

  predicate IsChild(ds: seq<Definition>, t: string) {
    exists d :: d in ds && IsMulti(d) && d.identifier == t
  }

  /** Orphaned are the generated tables no definition names any more; retained off the surface those that a
      definition names, but none active and multi. `subject` is neither. */
  lemma OrphansIff(ds: seq<Definition>, existing: set<string>, actual: map<string, string>, t: string)
    requires ValidCatalog(ds) && WellNamed(ds)
    ensures ReconcilePlan(ds, existing, actual).Ok?
    ensures t in ReconcilePlan(ds, existing, actual).value.orphans <==> t in existing && IsGenerated(t) && !IsCatalogued(ds, t)
    ensures t in ReconcilePlan(ds, existing, actual).value.offSurface <==>
            t in existing && IsGenerated(t) && IsCatalogued(ds, t) && !IsChild(ds, t)
  {
    PlanSucceedsIff(ds, existing, actual);
    RenderableSame(ds);
    NamedMembers(ds);
    SubjectIsNotGenerated();
    assert t in GeneratedNames(existing) <==> t in existing && IsRelation(t);
    assert t in CataloguedTables(Named(ds)) <==> t == SUBJECT_TABLE_NAME || (t != "" && IsCatalogued(ds, t));
    ChildTablesIff(ds, t);
    assert ChildTables(Named(ds)) == ChildTables(ds);
    assert IsGenerated(t) ==> t != "";
  }

  lemma ChildTablesIff(ds: seq<Definition>, t: string)
    ensures t in ChildTables(ds) <==> IsChild(ds, t)
  {
    ActiveMembers(ds, CARDINALITY_MULTI);
    if t in ChildTables(ds) {
      var d :| d in Active(ds, CARDINALITY_MULTI) && d.identifier == t;
      assert d in ds && IsMulti(d);
    }
    if d :| d in ds && IsMulti(d) && d.identifier == t { assert d in Active(ds, CARDINALITY_MULTI); }
  }

  lemma ThreeParts(present: set<string>, catalogued: set<string>, expected: set<string>)
    requires expected <= catalogued
    ensures present == present * expected + (present * catalogued - expected) + (present - catalogued)
    ensures present * expected !! (present * catalogued - expected) !! (present - catalogued)
  {
  }
}
