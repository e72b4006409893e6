/** What one reconciliation guarantees: when it is refused, its effect, idempotence and retention. */
module ReconcileLaws {
  import opened Identifiers
  import opened Catalog
  import opened Reconcile

  /** What the catalog's own constraints give: `VARCHAR(63)` and the partial unique index. */
  predicate ValidCatalog(ds: seq<Definition>) {
    FitsColumn(ds) && DistinctIdentifiers(ds)
  }

  /** No definition that owns a table or a column has a malformed identifier. */
  predicate WellNamed(ds: seq<Definition>) {
    forall d :: d in ds && (Owns(d, CARDINALITY_MULTI) || Owns(d, CARDINALITY_SINGLE)) ==> IsGenerated(d.identifier)
  }

  /** The server accepts every column name of the layout unquoted. */
  predicate BareNamed(ds: seq<Definition>, reserved: set<string>) {
    SubjectColumns(ds).Ok? && AllBare(SubjectColumns(ds).value, reserved)
  }

  /** Every child table of the catalog is there or can be created under its name. */
  predicate Creatable(db: Db, ds: seq<Definition>) {
    IsClear(db, Active(ds, CARDINALITY_MULTI))
  }

  /** What a caller can check before reconciling. */
  predicate Acceptable(db: Db, ds: seq<Definition>) {
    WellNamed(ds) && BareNamed(ds, db.reserved) && Creatable(db, ds)
  }

  // ----- the plan -----

  lemma {:induction false} ChildStatementsOk(ms: seq<Definition>)
    ensures ChildStatements(ms).Ok? <==> forall d :: d in ms ==> IsGenerated(d.identifier)
  {
    if ms != [] {
      ChildStatementsOk(ms[1..]);
      assert ms == [ms[0]] + ms[1..];
    }
  }

  /** Skipping the definitions without an identifier changes nothing. */
  lemma RenderableSame(ds: seq<Definition>)
    requires ValidCatalog(ds)
    ensures SubjectColumns(Named(ds)) == SubjectColumns(ds)
    ensures Active(Named(ds), CARDINALITY_MULTI) == Active(ds, CARDINALITY_MULTI)
  {
    NamedKeepsActive(ds, CARDINALITY_SINGLE);
    NamedKeepsActive(ds, CARDINALITY_MULTI);
  }

  /** Generation fails exactly on a malformed identifier that would become DDL. */
  lemma PlanSucceedsIff(ds: seq<Definition>, existing: set<string>, actual: map<string, string>)
    requires ValidCatalog(ds)
    ensures ReconcilePlan(ds, existing, actual).Ok? <==> WellNamed(ds)
  {
    RenderableSame(ds);
    SubjectColumnsDistinct(ds);
    ActiveMembers(ds, CARDINALITY_MULTI);
    ChildStatementsOk(Active(ds, CARDINALITY_MULTI));
  }

  predicate IsDivergence(v: Divergence, c: SubjectColumn, actual: map<string, string>) {
    && c.name in actual && !Agrees(actual[c.name], c.columnType)
    && v == Divergence(c.name, actual[c.name], c.columnType)
  }

  lemma {:induction false} DivergingMembers(cs: seq<SubjectColumn>, actual: map<string, string>)
    ensures forall v :: v in Diverging(cs, actual) <==> exists c :: c in cs && IsDivergence(v, c, actual)
  {
    if cs != [] {
      var rest := Diverging(cs[1..], actual);
      DivergingMembers(cs[1..], actual);
      assert cs == [cs[0]] + cs[1..];
      forall v ensures v in Diverging(cs, actual) <==> exists c :: c in cs && IsDivergence(v, c, actual) {
        assert v in Diverging(cs, actual) <==> IsDivergence(v, cs[0], actual) || v in rest;
      }
    }
  }

  lemma {:induction false} DivergingDistinct(cs: seq<SubjectColumn>, actual: map<string, string>)
    requires DistinctNames(cs)
    ensures forall i, j :: 0 <= i < j < |Diverging(cs, actual)| ==>
              Diverging(cs, actual)[i].column != Diverging(cs, actual)[j].column
  {
    if cs != [] {
      var rest := Diverging(cs[1..], actual);
      DivergingDistinct(cs[1..], actual);
      DivergingMembers(cs[1..], actual);
      forall v | v in rest ensures v.column != cs[0].name {
        var c :| c in cs[1..] && IsDivergence(v, c, actual);
        var k :| 0 <= k < |cs[1..]| && cs[1..][k] == c;
        assert cs[k + 1] == cs[1..][k];
      }
    }
  }

  lemma {:induction false} DivergingNone(cs: seq<SubjectColumn>, actual: map<string, string>)
    requires forall c :: c in cs && c.name in actual ==> Agrees(actual[c.name], c.columnType)
    ensures Diverging(cs, actual) == []
  {
    if cs != [] {
      assert cs[0] in cs;
      DivergingNone(cs[1..], actual);
    }
  }

  lemma {:induction false} LowerKeeps(s: string)
    requires forall i :: 0 <= i < |s| ==> !('A' <= s[i] <= 'Z')
    ensures Lower(s) == s
  {
    if s != "" { LowerKeeps(s[1..]); }
  }

  lemma ReportedTypeIsLower(t: ColumnType)
    ensures Lower(ReportedType(t)) == ReportedType(t)
  {
    LowerKeeps(ReportedType(t));
  }

  /** The spelling table is exact: a column is retyped iff its type is not the declared one. */
  lemma AgreesIff(actual: ColumnType, valueKind: string)
    ensures Agrees(ReportedType(actual), SubjectColumnType(valueKind)) <==> actual == SubjectColumnType(valueKind)
  {
    var declared := SubjectColumnType(valueKind);
    assert ExpectedReport(DeclaredType(declared)) == ReportedType(declared);
    ReportedTypeIsLower(actual); ReportedTypeIsLower(declared);
    if ReportedType(actual) == ReportedType(declared) { assert actual == declared; }
  }

  // ----- the effect of one reconcile -----

  function SubjectBefore(db: Db): Table {
    if SUBJECT_TABLE_NAME in db.tables then db.tables[SUBJECT_TABLE_NAME] else Table(SUBJECT_TABLE_COLUMNS, [])
  }

  function RetypedColumns(db: Db, ds: seq<Definition>): seq<Divergence>
    requires SubjectColumns(ds).Ok?
  {
    Diverging(SubjectColumns(ds).value, SubjectTypes(db))
  }

  function Target(db: Db, ds: seq<Definition>): Db
    requires SubjectColumns(ds).Ok?
  {
    var db1 := WithTable(WithChildren(db, Active(ds, CARDINALITY_MULTI)), SUBJECT_TABLE_NAME, SUBJECT_TABLE_COLUMNS);
    var subject := WithRetypes(WithColumns(SubjectBefore(db), SubjectColumns(ds).value), RetypedColumns(db, ds));
    WithSubject(db1, subject)
  }

  lemma SubjectFacts(db: Db, ds: seq<Definition>)
    requires Shaped(db) && ValidCatalog(ds) && SubjectColumns(ds).Ok?
    ensures ShapedTable(SUBJECT_TABLE_NAME, SubjectBefore(db))
    ensures DistinctNames(SubjectColumns(ds).value)
    ensures forall v :: v in RetypedColumns(db, ds) ==> v.column in SubjectBefore(db).columns
    ensures SUBJECT_TABLE_NAME !in db.tables ==> RetypedColumns(db, ds) == []
  {
    SubjectColumnsDistinct(ds);
    DivergingMembers(SubjectColumns(ds).value, SubjectTypes(db));
    SubjectIsNotGenerated();
    if SUBJECT_TABLE_NAME !in db.tables { DivergingNone(SubjectColumns(ds).value, SubjectTypes(db)); }
  }

  lemma RetypedAreBare(db: Db, ds: seq<Definition>)
    requires BareNamed(ds, db.reserved)
    ensures forall v :: v in RetypedColumns(db, ds) ==> IsBare(v.column, db.reserved)
  {
    DivergingMembers(SubjectColumns(ds).value, SubjectTypes(db));
  }

  /** What one reconcile retypes: the columns of the layout that are there at another type. */
  lemma RetypedIff(db: Db, ds: seq<Definition>, column: string)
    requires ValidCatalog(ds) && SubjectColumns(ds).Ok?
    ensures column in ClearedBy(RetypedColumns(db, ds)) <==>
              && SUBJECT_TABLE_NAME in db.tables && column in db.tables[SUBJECT_TABLE_NAME].columns
              && exists c :: c in SubjectColumns(ds).value && c.name == column
                             && db.tables[SUBJECT_TABLE_NAME].columns[column] != c.columnType
  {
    var cs, actual := SubjectColumns(ds).value, SubjectTypes(db);
    SubjectColumnsDistinct(ds);
    DivergingMembers(cs, actual);
    forall c | c in cs && c.name in actual
      ensures Agrees(actual[c.name], c.columnType) <==> db.tables[SUBJECT_TABLE_NAME].columns[c.name] == c.columnType
    {
      AgreesIff(db.tables[SUBJECT_TABLE_NAME].columns[c.name], c.definition.valueKind);
    }
    if column in ClearedBy(RetypedColumns(db, ds)) {
      var v :| v in Diverging(cs, actual) && v.column == column;
      var c :| c in cs && IsDivergence(v, c, actual);
    }
    if c :| c in cs && c.name == column && c.name in actual && !Agrees(actual[c.name], c.columnType) {
      assert IsDivergence(Divergence(c.name, actual[c.name], c.columnType), c, actual);
    }
  }

  lemma SubjectIsNotGenerated()
    ensures !IsGenerated(SUBJECT_TABLE_NAME)
  {
    if IsGenerated(SUBJECT_TABLE_NAME) { GeneratedIsNotSubject(SUBJECT_TABLE_NAME); }
  }

  const CREATE_SUBJECT: seq<Statement> := [CreateTable(SUBJECT_TABLE_NAME, SUBJECT_TABLE_COLUMNS)]

  function WithSubjectTable(db: Db): Db {
    WithTable(db, SUBJECT_TABLE_NAME, SUBJECT_TABLE_COLUMNS)
  }

  lemma CreateSubjectApplied(db: Db)
    requires SUBJECT_TABLE_NAME !in db.indexes
    ensures ApplyAll(db, CREATE_SUBJECT) == Ok(WithSubjectTable(db))
    ensures SUBJECT_TABLE_NAME in WithSubjectTable(db).tables
    ensures WithSubjectTable(db).tables[SUBJECT_TABLE_NAME] == SubjectBefore(db)
    ensures WithSubjectTable(db).reserved == db.reserved
  {
    assert CREATE_SUBJECT[1..] == [];
  }

  lemma ApplyBoth(db: Db, ss: seq<Statement>, tt: seq<Statement>, mid: Db, end: Db)
    requires ApplyAll(db, ss) == Ok(mid) && ApplyAll(mid, tt) == Ok(end)
    ensures ApplyAll(db, ss + tt) == Ok(end)
  {
    ApplyAllConcat(db, ss, tt);
  }

  lemma CreateAndAddApplied(db: Db, cs: seq<SubjectColumn>)
    requires AllBare(cs, db.reserved) && SUBJECT_TABLE_NAME !in db.indexes
    ensures ApplyAll(db, CREATE_SUBJECT + AddStatements(cs)) ==
            Ok(WithSubject(WithSubjectTable(db), WithColumns(SubjectBefore(db), cs)))
  {
    var created := WithSubjectTable(db);
    CreateSubjectApplied(db);
    ColumnsApplied(created, cs);
    ApplyBoth(db, CREATE_SUBJECT, AddStatements(cs), created, WithSubject(created, WithColumns(SubjectBefore(db), cs)));
  }

  /** Create, add columns, retype: the part of the plan that touches `subject`. */
  lemma SubjectApplied(db: Db, cs: seq<SubjectColumn>, vs: seq<Divergence>)
    requires SubjectBefore(db).Conforms() && AllBare(cs, db.reserved) && SUBJECT_TABLE_NAME !in db.indexes
    requires forall v :: v in vs ==> v.column in SubjectBefore(db).columns && IsBare(v.column, db.reserved)
    ensures ApplyAll(db, CREATE_SUBJECT + AddStatements(cs) + RetypeStatements(vs)) ==
            Ok(WithSubject(WithSubjectTable(db), WithRetypes(WithColumns(SubjectBefore(db), cs), vs)))
  {
    var created := WithSubjectTable(db);
    var s1 := WithColumns(SubjectBefore(db), cs);
    var s2 := WithRetypes(s1, vs);
    CreateSubjectApplied(db);
    CreateAndAddApplied(db, cs);
    ColumnsKeep(SubjectBefore(db), cs);
    RetypesApplied(WithSubject(created, s1), vs);
    WithSubjectTwice(created, s1, s2);
    ApplyBoth(db, CREATE_SUBJECT + AddStatements(cs), RetypeStatements(vs), WithSubject(created, s1), WithSubject(created, s2));
  }

  lemma EntityTableStatementsAre(ds: seq<Definition>)
    requires ValidCatalog(ds) && WellNamed(ds)
    ensures SubjectColumns(ds).Ok? && ChildStatements(Active(ds, CARDINALITY_MULTI)).Ok?
    ensures EntityTableStatements(Named(ds)) ==
            Ok(ChildStatements(Active(ds, CARDINALITY_MULTI)).value
               + (CREATE_SUBJECT + AddStatements(SubjectColumns(ds).value)))
  {
    RenderableSame(ds);
    SubjectColumnsDistinct(ds);
    ActiveMembers(ds, CARDINALITY_MULTI);
    ChildStatementsOk(Active(ds, CARDINALITY_MULTI));
    ConcatTwice(ChildStatements(Active(ds, CARDINALITY_MULTI)).value,
      CREATE_SUBJECT, AddStatements(SubjectColumns(ds).value));
  }

  lemma PlanStatements(ds: seq<Definition>, existing: set<string>, actual: map<string, string>)
    requires ValidCatalog(ds) && WellNamed(ds)
    ensures SubjectColumns(ds).Ok? && ChildStatements(Active(ds, CARDINALITY_MULTI)).Ok?
    ensures ReconcilePlan(ds, existing, actual).Ok?
    ensures ReconcilePlan(ds, existing, actual).value.statements ==
            ChildStatements(Active(ds, CARDINALITY_MULTI)).value
            + (CREATE_SUBJECT + AddStatements(SubjectColumns(ds).value)
               + RetypeStatements(Diverging(SubjectColumns(ds).value, actual)))
  {
    RenderableSame(ds);
    EntityTableStatementsAre(ds);
    var retyped := Diverging(SubjectColumns(Named(ds)).value, actual);
    assert ReconcilePlan(ds, existing, actual).Ok?;
    assert ReconcilePlan(ds, existing, actual).value.retyped == retyped;
    assert ReconcilePlan(ds, existing, actual).value.statements ==
           EntityTableStatements(Named(ds)).value + RetypeStatements(retyped);
    ConcatTwice(ChildStatements(Active(ds, CARDINALITY_MULTI)).value,
      CREATE_SUBJECT + AddStatements(SubjectColumns(ds).value),
      RetypeStatements(Diverging(SubjectColumns(ds).value, actual)));
  }

  lemma ConcatTwice(a: seq<Statement>, b: seq<Statement>, c: seq<Statement>)
    ensures (a + b) + c == a + (b + c)
  {
  }

  lemma ReconciledIsTarget(db: Db, ds: seq<Definition>)
    requires Shaped(db) && ValidCatalog(ds) && Acceptable(db, ds) && db.hasEntityStore
    ensures SubjectColumns(ds).Ok?
    ensures Reconciled(db, ds) == Ok(Target(db, ds))
  {
    PlanStatements(ds, db.tables.Keys, SubjectTypes(db));
    SubjectFacts(db, ds);
    var ms, cs, vs := Active(ds, CARDINALITY_MULTI), SubjectColumns(ds).value, RetypedColumns(db, ds);
    ApplyAllConcat(db, ChildStatements(ms).value,
      CREATE_SUBJECT + AddStatements(cs) + RetypeStatements(vs));
    ChildrenApplied(db, ms);
    ChildrenSkipSubject(db, ms);
    ChildIndexesEffect(db, ms);
    RetypedAreBare(db, ds);
    assert SubjectBefore(WithChildren(db, ms)) == SubjectBefore(db);
    SubjectApplied(WithChildren(db, ms), cs, vs);
  }

  /** A name the server refuses fails the reconcile. */
  lemma RefusedByServer(db: Db, ds: seq<Definition>)
    requires Shaped(db) && ValidCatalog(ds) && WellNamed(ds) && Creatable(db, ds) && !BareNamed(ds, db.reserved) && db.hasEntityStore
    ensures Reconciled(db, ds).Err?
  {
    PlanStatements(ds, db.tables.Keys, SubjectTypes(db));
    var ms, cs, vs := Active(ds, CARDINALITY_MULTI), SubjectColumns(ds).value, RetypedColumns(db, ds);
    var mid := WithChildren(db, ms);
    ChildrenApplied(db, ms);
    ChildIndexesEffect(db, ms);
    ApplyAllConcat(db, ChildStatements(ms).value, CREATE_SUBJECT + AddStatements(cs) + RetypeStatements(vs));
    ApplyAllConcat(mid, CREATE_SUBJECT + AddStatements(cs), RetypeStatements(vs));
    ApplyAllConcat(mid, CREATE_SUBJECT, AddStatements(cs));
    CreateSubjectApplied(mid);
    ColumnsRefused(WithSubjectTable(mid), cs);
  }

  /** So does a child table whose name an index has. */
  lemma RefusedForName(db: Db, ds: seq<Definition>)
    requires Shaped(db) && ValidCatalog(ds) && WellNamed(ds) && !Creatable(db, ds) && db.hasEntityStore
    ensures Reconciled(db, ds).Err?
  {
    PlanStatements(ds, db.tables.Keys, SubjectTypes(db));
    var ms, cs, vs := Active(ds, CARDINALITY_MULTI), SubjectColumns(ds).value, RetypedColumns(db, ds);
    ChildrenRefused(db, ms);
    ApplyAllConcat(db, ChildStatements(ms).value, CREATE_SUBJECT + AddStatements(cs) + RetypeStatements(vs));
  }

  /** A reconcile is refused exactly when an owning definition is malformed, the server does not take some
      column of the layout as a bare name, or an index has the name of a child table to be created. */
  lemma ReconcileRefusedIff(db: Db, ds: seq<Definition>)
    requires Shaped(db) && ValidCatalog(ds) && db.hasEntityStore
    ensures Reconciled(db, ds).Err? <==> !WellNamed(ds) || !BareNamed(ds, db.reserved) || !Creatable(db, ds)
  {
    PlanSucceedsIff(ds, db.tables.Keys, SubjectTypes(db));
    if WellNamed(ds) {
      if !Creatable(db, ds) { RefusedForName(db, ds); }
      else if BareNamed(ds, db.reserved) { ReconciledIsTarget(db, ds); }
      else { RefusedByServer(db, ds); }
    }
  }

  lemma ChildrenSkipSubject(db: Db, ms: seq<Definition>)
    requires ChildStatements(ms).Ok? && IsClear(db, ms)
    ensures SUBJECT_TABLE_NAME in WithChildren(db, ms).tables <==> SUBJECT_TABLE_NAME in db.tables
    ensures SUBJECT_TABLE_NAME in db.tables ==>
              WithChildren(db, ms).tables[SUBJECT_TABLE_NAME] == db.tables[SUBJECT_TABLE_NAME]
  {
    ChildStatementsOk(ms);
    ChildrenEffect(db, ms);
    ChildIndexesEffect(db, ms);
    forall d | d in ms ensures d.identifier != SUBJECT_TABLE_NAME { GeneratedIsNotSubject(d.identifier); }
  }

  /** Everything the catalog asks for is in place: child tables with their index, and every
      `subject` column at its declared type. */
  predicate Settled(db: Db, ds: seq<Definition>) {
    && SubjectColumns(ds).Ok?
    && SUBJECT_TABLE_NAME in db.tables
    && (forall d :: d in ds && Owns(d, CARDINALITY_MULTI) ==>
          d.identifier in db.tables && IsTaken(db, ChildIndexName(d.identifier)))
    && (forall c :: c in SubjectColumns(ds).value ==>
          c.name in db.tables[SUBJECT_TABLE_NAME].columns
          && db.tables[SUBJECT_TABLE_NAME].columns[c.name] == c.columnType)
  }

  /** One reconcile, in full: the schema stays well shaped and becomes settled; every table is
      kept; every row, column and cell is kept, except that the `subject` columns it retypes hold
      NULL at their new type; and it retypes only columns whose type differs from the declared. */
  lemma ReconcileEffect(db: Db, ds: seq<Definition>)
    requires Shaped(db) && ValidCatalog(ds) && Acceptable(db, ds) && db.hasEntityStore
    ensures SubjectColumns(ds).Ok? && Reconciled(db, ds).Ok?
    ensures var after := Reconciled(db, ds).value;
            && Shaped(after) && Settled(after, ds) && after.hasEntityStore && after.reserved == db.reserved
            && db.tables.Keys <= after.tables.Keys && db.indexes <= after.indexes
            && forall t :: t in db.tables ==>
                 if t == SUBJECT_TABLE_NAME then Keeps(db.tables[t], after.tables[t], ClearedBy(RetypedColumns(db, ds)))
                 else after.tables[t] == db.tables[t]
  {
    ReconciledIsTarget(db, ds);
    CreatedEffect(db, ds);
    SubjectKept(db, ds);
    SubjectTypesSettled(db, ds);
    SubjectStaysShaped(db, ds);
  }

  /** The schema when every table of the catalog is created. */
  function Created(db: Db, ds: seq<Definition>): Db {
    WithSubjectTable(WithChildren(db, Active(ds, CARDINALITY_MULTI)))
  }

  lemma CreatedEffect(db: Db, ds: seq<Definition>)
    requires Shaped(db) && ValidCatalog(ds) && WellNamed(ds) && Creatable(db, ds)
    ensures var after := Created(db, ds);
            && Shaped(after) && after.hasEntityStore == db.hasEntityStore && after.reserved == db.reserved
            && db.tables.Keys <= after.tables.Keys && db.indexes <= after.indexes
            && (forall t :: t in db.tables ==> after.tables[t] == db.tables[t])
            && SUBJECT_TABLE_NAME in after.tables && after.tables[SUBJECT_TABLE_NAME] == SubjectBefore(db)
            && forall d :: d in ds && Owns(d, CARDINALITY_MULTI) ==>
                 d.identifier in after.tables && IsTaken(after, ChildIndexName(d.identifier))
  {
    var ms := Active(ds, CARDINALITY_MULTI);
    ActiveMembers(ds, CARDINALITY_MULTI);
    ChildStatementsOk(ms);
    ChildrenEffect(db, ms);
    ChildIndexesEffect(db, ms);
    ChildrenApplied(db, ms);
    ChildrenSkipSubject(db, ms);
    SubjectTableEffect(WithChildren(db, ms));
  }

  lemma SubjectTableEffect(db: Db)
    requires Shaped(db)
    ensures Shaped(WithSubjectTable(db))
    ensures db.tables.Keys <= WithSubjectTable(db).tables.Keys && db.indexes <= WithSubjectTable(db).indexes
    ensures forall t :: t in db.tables ==> WithSubjectTable(db).tables[t] == db.tables[t]
    ensures SUBJECT_TABLE_NAME in WithSubjectTable(db).tables
    ensures WithSubjectTable(db).tables[SUBJECT_TABLE_NAME] == SubjectBefore(db)
  {
    SubjectIsNotGenerated();
    ChildNamesAreNotSubject(db, SUBJECT_TABLE_NAME);
  }

  /** `subject` keeps what it had but for the columns it retypes. */
  lemma SubjectKept(db: Db, ds: seq<Definition>)
    requires Shaped(db) && ValidCatalog(ds) && SubjectColumns(ds).Ok?
    ensures Keeps(SubjectBefore(db), WithRetypes(WithColumns(SubjectBefore(db), SubjectColumns(ds).value), RetypedColumns(db, ds)),
                  ClearedBy(RetypedColumns(db, ds)))
  {
    SubjectFacts(db, ds);
    var before, cs, vs := SubjectBefore(db), SubjectColumns(ds).value, RetypedColumns(db, ds);
    ColumnsKeep(before, cs);
    RetypesKeep(WithColumns(before, cs), vs);
    KeepsTransitive(before, WithColumns(before, cs), WithRetypes(WithColumns(before, cs), vs), {}, ClearedBy(vs));
    assert {} + ClearedBy(vs) == ClearedBy(vs);
  }

  lemma SubjectTypesSettled(db: Db, ds: seq<Definition>)
    requires Shaped(db) && ValidCatalog(ds) && SubjectColumns(ds).Ok?
    ensures forall c :: c in SubjectColumns(ds).value ==>
              var after := Target(db, ds).tables[SUBJECT_TABLE_NAME];
              c.name in after.columns && after.columns[c.name] == c.columnType
  {
    var cs := SubjectColumns(ds).value;
    forall c | c in cs
      ensures var after := Target(db, ds).tables[SUBJECT_TABLE_NAME]; c.name in after.columns && after.columns[c.name] == c.columnType
    {
      var k :| 0 <= k < |cs| && cs[k] == c;
      ColumnSettled(db, ds, k);
    }
  }

  /** A column that diverges is retyped to what is declared; any other has that type. */
  lemma ColumnSettled(db: Db, ds: seq<Definition>, k: nat)
    requires Shaped(db) && ValidCatalog(ds) && SubjectColumns(ds).Ok? && k < |SubjectColumns(ds).value|
    ensures var c := SubjectColumns(ds).value[k];
            var after := WithRetypes(WithColumns(SubjectBefore(db), SubjectColumns(ds).value), RetypedColumns(db, ds));
            c.name in after.columns && after.columns[c.name] == c.columnType
  {
    var cs, vs := SubjectColumns(ds).value, RetypedColumns(db, ds);
    var before, actual, c := SubjectBefore(db), SubjectTypes(db), SubjectColumns(ds).value[k];
    SubjectColumnsDistinct(ds);
    DivergingDistinct(cs, actual);
    RetypesTypes(WithColumns(before, cs), vs);
    if c.name in actual && !Agrees(actual[c.name], c.columnType) {
      DivergingMembers(cs, actual);
      assert IsDivergence(Divergence(c.name, actual[c.name], c.columnType), c, actual);
    } else {
      NotCleared(cs, actual, k);
      AddedAtItsType(db, ds, k);
    }
  }

  lemma AddedAtItsType(db: Db, ds: seq<Definition>, k: nat)
    requires Shaped(db) && ValidCatalog(ds) && SubjectColumns(ds).Ok? && k < |SubjectColumns(ds).value|
    requires var c := SubjectColumns(ds).value[k]; c.name in SubjectTypes(db) ==> Agrees(SubjectTypes(db)[c.name], c.columnType)
    ensures var c := SubjectColumns(ds).value[k]; var after := WithColumns(SubjectBefore(db), SubjectColumns(ds).value);
            c.name in after.columns && after.columns[c.name] == c.columnType
  {
    var cs, before := SubjectColumns(ds).value, SubjectBefore(db);
    SubjectColumnsDistinct(ds);
    ColumnsTypes(before, cs);
    assert cs[k] in cs;
    if cs[k].name in before.columns {
      assert cs[k].name !in SUBJECT_TABLE_COLUMNS;
      AgreesIff(before.columns[cs[k].name], cs[k].definition.valueKind);
    }
  }

  lemma NotCleared(cs: seq<SubjectColumn>, actual: map<string, string>, k: nat)
    requires DistinctNames(cs) && k < |cs|
    requires cs[k].name in actual ==> Agrees(actual[cs[k].name], cs[k].columnType)
    ensures cs[k].name !in ClearedBy(Diverging(cs, actual))
  {
    DivergingMembers(cs, actual);
    forall u | u in Diverging(cs, actual) ensures u.column != cs[k].name {
      var c :| c in cs && IsDivergence(u, c, actual);
    }
  }

  /** The identity columns are never retyped. */
  lemma SubjectStaysShaped(db: Db, ds: seq<Definition>)
    requires Shaped(db) && ValidCatalog(ds) && SubjectColumns(ds).Ok?
    ensures ShapedTable(SUBJECT_TABLE_NAME, Target(db, ds).tables[SUBJECT_TABLE_NAME])
  {
    SubjectFacts(db, ds);
    SubjectKept(db, ds);
    IdentityNotRetyped(db, ds);
    SubjectIsNotGenerated();
  }

  lemma IdentityNotRetyped(db: Db, ds: seq<Definition>)
    requires ValidCatalog(ds) && SubjectColumns(ds).Ok?
    ensures forall c :: c in ClearedBy(RetypedColumns(db, ds)) ==> c !in SUBJECT_IDENTITY_COLUMNS
  {
    SubjectColumnsDistinct(ds);
    DivergingMembers(SubjectColumns(ds).value, SubjectTypes(db));
  }

  // ----- fixpoints -----

  lemma {:induction false} ChildrenIdle(db: Db, ms: seq<Definition>)
    requires forall d :: d in ms ==> d.identifier in db.tables && IsTaken(db, ChildIndexName(d.identifier))
    ensures WithChildren(db, ms) == db && IsClear(db, ms)
    decreases |ms|
  {
    if ms != [] {
      assert ms[0] in ms;
      ChildrenIdle(db, ms[1..]);
    }
  }

  lemma SettledIsCreatable(db: Db, ds: seq<Definition>)
    requires Settled(db, ds)
    ensures Creatable(db, ds)
  {
    ActiveMembers(ds, CARDINALITY_MULTI);
    ChildrenIdle(db, Active(ds, CARDINALITY_MULTI));
  }

  lemma {:induction false} ColumnsIdle(t: Table, cs: seq<SubjectColumn>)
    requires forall c :: c in cs ==> c.name in t.columns
    ensures WithColumns(t, cs) == t
    decreases |cs|
  {
    if cs != [] {
      assert cs[0] in cs;
      ColumnsIdle(t, cs[1..]);
    }
  }

  /** Reconciling changes nothing exactly when the schema is already settled for the catalog. In
      particular a second reconcile retypes nothing and leaves the schema and every row as it was. */
  lemma ReconcileIdleIff(db: Db, ds: seq<Definition>)
    requires Shaped(db) && ValidCatalog(ds) && Acceptable(db, ds) && db.hasEntityStore
    ensures Reconciled(db, ds) == Ok(db) <==> Settled(db, ds)
    ensures Settled(db, ds) ==> RetypedColumns(db, ds) == []
    ensures Reconciled(db, ds).Ok? && Reconciled(Reconciled(db, ds).value, ds) == Reconciled(db, ds)
  {
    ReconcileEffect(db, ds);
    if Settled(db, ds) { SettledIsIdle(db, ds); }
    SettledIsIdle(Reconciled(db, ds).value, ds);
  }

  lemma SettledIsIdle(db: Db, ds: seq<Definition>)
    requires Shaped(db) && ValidCatalog(ds) && WellNamed(ds) && BareNamed(ds, db.reserved) && db.hasEntityStore && Settled(db, ds)
    ensures Creatable(db, ds) && RetypedColumns(db, ds) == []
    ensures Reconciled(db, ds) == Ok(db)
  {
    var cs := SubjectColumns(ds).value;
    var t := db.tables[SUBJECT_TABLE_NAME];
    SubjectColumnsDistinct(ds);
    ActiveMembers(ds, CARDINALITY_MULTI);
    forall c | c in cs && c.name in SubjectTypes(db) ensures Agrees(SubjectTypes(db)[c.name], c.columnType) {
      AgreesIff(t.columns[c.name], c.definition.valueKind);
    }
    DivergingNone(cs, SubjectTypes(db));
    ChildrenIdle(db, Active(ds, CARDINALITY_MULTI));
    ColumnsIdle(t, cs);
    ReconciledIsTarget(db, ds);
    WithSameSubject(db);
  }

  lemma TablesApplied(db: Db, ds: seq<Definition>)
    requires Shaped(db) && ValidCatalog(ds) && Acceptable(db, ds)
    ensures SubjectColumns(ds).Ok? && EntityTableStatements(Named(ds)).Ok?
    ensures ApplyAll(db, EntityTableStatements(Named(ds)).value).Ok?
    ensures var mid := ApplyAll(db, EntityTableStatements(Named(ds)).value).value;
            SUBJECT_TABLE_NAME in mid.tables
            && mid.tables[SUBJECT_TABLE_NAME] == WithColumns(SubjectBefore(db), SubjectColumns(ds).value)
  {
    EntityTableStatementsAre(ds);
    var ms, cs := Active(ds, CARDINALITY_MULTI), SubjectColumns(ds).value;
    ApplyAllConcat(db, ChildStatements(ms).value, CREATE_SUBJECT + AddStatements(cs));
    ChildrenApplied(db, ms);
    ChildrenSkipSubject(db, ms);
    ChildIndexesEffect(db, ms);
    CreateAndAddApplied(WithChildren(db, ms), cs);
  }

  /** The snapshot taken before any DDL gives the same retype list as one taken after the create
      and add-column statements have run, because a column added there has its declared type. */
  lemma SnapshotSuffices(db: Db, ds: seq<Definition>)
    requires Shaped(db) && ValidCatalog(ds) && Acceptable(db, ds)
    ensures SubjectColumns(ds).Ok? && EntityTableStatements(Named(ds)).Ok?
    ensures ApplyAll(db, EntityTableStatements(Named(ds)).value).Ok?
    ensures Diverging(SubjectColumns(ds).value, SubjectTypes(db)) ==
            Diverging(SubjectColumns(ds).value, SubjectTypes(ApplyAll(db, EntityTableStatements(Named(ds)).value).value))
  {
    TablesApplied(db, ds);
    var cs := SubjectColumns(ds).value;
    var mid := ApplyAll(db, EntityTableStatements(Named(ds)).value).value;
    AddedColumnsAgree(db, mid, ds);
    DivergingSame(cs, SubjectTypes(db), SubjectTypes(mid));
  }

  lemma AddedColumnsAgree(db: Db, mid: Db, ds: seq<Definition>)
    requires Shaped(db) && ValidCatalog(ds) && SubjectColumns(ds).Ok?
    requires SUBJECT_TABLE_NAME in mid.tables
    requires mid.tables[SUBJECT_TABLE_NAME] == WithColumns(SubjectBefore(db), SubjectColumns(ds).value)
    ensures forall k :: 0 <= k < |SubjectColumns(ds).value| ==>
              SameDivergence(SubjectColumns(ds).value[k], SubjectTypes(db), SubjectTypes(mid))
  {
    var cs := SubjectColumns(ds).value;
    SubjectFacts(db, ds);
    ColumnsTypes(SubjectBefore(db), cs);
    SubjectColumnsDistinct(ds);
    forall k | 0 <= k < |cs| ensures SameDivergence(cs[k], SubjectTypes(db), SubjectTypes(mid)) {
      assert cs[k] in cs;
      if cs[k].name !in SubjectTypes(db) {
        assert cs[k].name !in SUBJECT_TABLE_COLUMNS;
        AgreesIff(mid.tables[SUBJECT_TABLE_NAME].columns[cs[k].name], cs[k].definition.valueKind);
      }
    }
  }

  predicate SameDivergence(c: SubjectColumn, a: map<string, string>, b: map<string, string>) {
    if c.name in a then c.name in b && b[c.name] == a[c.name]
    else c.name in b ==> Agrees(b[c.name], c.columnType)
  }

  lemma {:induction false} DivergingSame(cs: seq<SubjectColumn>, a: map<string, string>, b: map<string, string>)
    requires forall k :: 0 <= k < |cs| ==> SameDivergence(cs[k], a, b)
    ensures Diverging(cs, a) == Diverging(cs, b)
  {
    if cs != [] {
      assert SameDivergence(cs[0], a, b);
      DivergingSame(cs[1..], a, b);
    }
  }
}
