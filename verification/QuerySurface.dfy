/** What the query surface of a catalog holds, definition by definition, and what it finds on disk. */
module QuerySurface {
  import opened Identifiers
  import opened Catalog
  import opened ColumnNames
  import opened Reconcile
  import opened ReconcileLaws

  predicate IsSingle(d: Definition) {
    d.isActive && d.cardinality == "single" && d.identifier != ""
  }

  predicate IsMulti(d: Definition) {
    d.isActive && d.cardinality == "multi" && d.identifier != ""
  }

  /** The kinds of value a type of column is for. */
  predicate HoldsKind(t: ColumnType, kind: string) {
    match t
    case DoublePrecision => kind in ["number", "money", "duration", "boolean"]
    case DateType => kind == "date"
    case TextType => kind !in ["number", "money", "duration", "boolean", "date"]
    case _ => false
  }

  /** Each kind has one type of column, the one generated for it. */
  lemma TypeHoldsKind(t: ColumnType, kind: string)
    ensures HoldsKind(t, kind) <==> t == SubjectColumnType(kind)
  {
    assert "date"[0] == 'd' && "number"[0] == 'n' && "money"[0] == 'm' && "boolean"[0] == 'b' && |"date"| == 4 && |"duration"| == 8;
  }

  /** The column of `subject` an active single definition owns. */
  function ColumnOf(ds: seq<Definition>, d: Definition): string {
    ColumnName(Stems(ds), Stripped(d))
  }

  lemma ColumnOfOwner(ds: seq<Definition>, d: Definition) returns (c: SubjectColumn)
    requires ValidCatalog(ds) && SubjectColumns(ds).Ok? && d in ds && IsSingle(d)
    ensures c in SubjectColumns(ds).value && c.definition == d && c.name == ColumnOf(ds, d)
    ensures HoldsKind(c.columnType, d.valueKind) && c.name !in {"document_id", "filename"}
  {
    SubjectColumnsDistinct(ds);
    ColumnNamesAre(ds);
    assert Owns(d, CARDINALITY_SINGLE);
    c :| c in SubjectColumns(ds).value && c.definition == d;
    TypeHoldsKind(c.columnType, d.valueKind);
    assert "document_id" in SUBJECT_IDENTITY_COLUMNS && "filename" in SUBJECT_IDENTITY_COLUMNS;
  }

  lemma OwnerOfColumn(ds: seq<Definition>, c: SubjectColumn)
    requires ValidCatalog(ds) && SubjectColumns(ds).Ok? && c in SubjectColumns(ds).value
    ensures c.definition in ds && IsSingle(c.definition) && c.name == ColumnOf(ds, c.definition)
  {
    SubjectColumnsDistinct(ds);
    ColumnNamesAre(ds);
    assert c.definition in ds && Owns(c.definition, CARDINALITY_SINGLE);
  }

  /** The surface of a catalog: `subject`, and one relation for each active multi definition. */
  lemma SurfaceRelations(ds: seq<Definition>)
    requires ValidCatalog(ds)
    ensures ColumnsByRelation(ds).Ok? <==> forall d :: d in ds && IsSingle(d) ==> IsGenerated(d.identifier)
    ensures ColumnsByRelation(ds).Ok? ==>
              forall r :: r in ColumnsByRelation(ds).value <==>
                r == "subject" || exists d :: d in ds && IsMulti(d) && d.identifier == r
  {
    SubjectColumnsDistinct(ds);
    ActiveMembers(ds, CARDINALITY_MULTI);
    if ColumnsByRelation(ds).Ok? {
      forall r ensures r in ChildTables(ds) <==> exists d :: d in ds && IsMulti(d) && d.identifier == r {
        if r in ChildTables(ds) {
          var d :| d in Active(ds, CARDINALITY_MULTI) && d.identifier == r;
          assert d in ds && IsMulti(d);
        }
        if d :| d in ds && IsMulti(d) && d.identifier == r { assert d in Active(ds, CARDINALITY_MULTI); }
      }
    }
  }

  /** The columns it gives them: to `subject` the two identity columns and one for each active single
      definition, two of them never the same; to a child relation those its table is created with. */
  lemma SurfaceColumns(ds: seq<Definition>)
    requires ValidCatalog(ds) && WellNamed(ds)
    ensures ColumnsByRelation(ds).Ok?
    ensures var surface := ColumnsByRelation(ds).value;
            && SUBJECT_TABLE_NAME in surface
            && (forall column :: column in surface[SUBJECT_TABLE_NAME] <==>
                  column in {"document_id", "filename"} || exists d :: d in ds && IsSingle(d) && column == ColumnOf(ds, d))
            && forall d :: d in ds && IsMulti(d) ==> d.identifier in surface && surface[d.identifier] == CHILD_TABLE_COLUMNS.Keys
    ensures forall d, e :: d in ds && e in ds && IsSingle(d) && IsSingle(e) && d.identifier != e.identifier ==>
              ColumnOf(ds, d) != ColumnOf(ds, e)
  {
    SurfaceRelations(ds);
    var surface, cs := ColumnsByRelation(ds).value, SubjectColumns(ds).value;
    SubjectIsNotGenerated();
    ActiveMembers(ds, CARDINALITY_MULTI);
    assert SUBJECT_TABLE_NAME !in ChildTables(ds);
    forall column ensures column in surface[SUBJECT_TABLE_NAME] <==>
        column in {"document_id", "filename"} || exists d :: d in ds && IsSingle(d) && column == ColumnOf(ds, d)
    {
      SubjectColumnIff(ds, column);
    }
    forall d | d in ds && IsMulti(d) ensures d.identifier in surface && surface[d.identifier] == CHILD_TABLE_COLUMNS.Keys {
      assert d in Active(ds, CARDINALITY_MULTI) && d.identifier in ChildTables(ds);
      ChildColumns();
    }
    forall d, e | d in ds && e in ds && IsSingle(d) && IsSingle(e) && d.identifier != e.identifier
      ensures ColumnOf(ds, d) != ColumnOf(ds, e)
    {
      ColumnsApart(ds, d, e);
    }
  }

  lemma SubjectColumnIff(ds: seq<Definition>, column: string)
    requires ValidCatalog(ds) && SubjectColumns(ds).Ok?
    ensures column in (set c | c in SUBJECT_IDENTITY_COLUMNS) + (set c | c in SubjectColumns(ds).value :: c.name) <==>
            column in {"document_id", "filename"} || exists d :: d in ds && IsSingle(d) && column == ColumnOf(ds, d)
  {
    if c :| c in SubjectColumns(ds).value && c.name == column { OwnerOfColumn(ds, c); }
    if d :| d in ds && IsSingle(d) && column == ColumnOf(ds, d) { var c := ColumnOfOwner(ds, d); }
  }

  lemma ChildColumns()
    ensures (set c | c in CHILD_VALUE_COLUMNS) == CHILD_TABLE_COLUMNS.Keys
  {
  }

  lemma ColumnsApart(ds: seq<Definition>, d: Definition, e: Definition)
    requires ValidCatalog(ds) && SubjectColumns(ds).Ok?
    requires d in ds && e in ds && IsSingle(d) && IsSingle(e) && d.identifier != e.identifier
    ensures ColumnOf(ds, d) != ColumnOf(ds, e)
  {
    var a := ColumnOfOwner(ds, d);
    var b := ColumnOfOwner(ds, e);
    SubjectColumnsDistinct(ds);
    var i :| 0 <= i < |SubjectColumns(ds).value| && SubjectColumns(ds).value[i] == a;
    var j :| 0 <= j < |SubjectColumns(ds).value| && SubjectColumns(ds).value[j] == b;
  }

  // ----- on disk -----

  /** Every active definition finds what it describes: a single one its column of `subject`, of the type for
      its kind of value; a multi one its table, with the columns of every child table. */
  predicate Described(db: Db, ds: seq<Definition>) {
    && SUBJECT_TABLE_NAME in db.tables
    && (forall c :: c in ["document_id", "filename"] ==> c in db.tables[SUBJECT_TABLE_NAME].columns)
    && (forall d :: d in ds && IsSingle(d) ==>
          ColumnOf(ds, d) in db.tables[SUBJECT_TABLE_NAME].columns
          && HoldsKind(db.tables[SUBJECT_TABLE_NAME].columns[ColumnOf(ds, d)], d.valueKind))
    && (forall d :: d in ds && IsMulti(d) ==> d.identifier in db.tables && db.tables[d.identifier].columns == CHILD_TABLE_COLUMNS)
  }

  /** Every relation and column of the query surface is there. */
  predicate Readable(db: Db, ds: seq<Definition>) {
    && ColumnsByRelation(ds).Ok?
    && forall t :: t in ColumnsByRelation(ds).value ==>
         t in db.tables && ColumnsByRelation(ds).value[t] <= db.tables[t].columns.Keys
  }

  predicate SurfacePresent(db: Db, ds: seq<Definition>) {
    Described(db, ds) && Readable(db, ds)
  }

  lemma SettledIsDescribed(db: Db, ds: seq<Definition>)
    requires Shaped(db) && ValidCatalog(ds) && WellNamed(ds) && Settled(db, ds)
    ensures Described(db, ds)
  {
    assert ShapedTable(SUBJECT_TABLE_NAME, db.tables[SUBJECT_TABLE_NAME]);
    forall d | d in ds && IsSingle(d)
      ensures ColumnOf(ds, d) in db.tables[SUBJECT_TABLE_NAME].columns
              && HoldsKind(db.tables[SUBJECT_TABLE_NAME].columns[ColumnOf(ds, d)], d.valueKind)
    {
      var c := ColumnOfOwner(ds, d);
    }
    forall d | d in ds && IsMulti(d) ensures d.identifier in db.tables && db.tables[d.identifier].columns == CHILD_TABLE_COLUMNS {
      assert Owns(d, CARDINALITY_MULTI);
      assert ShapedTable(d.identifier, db.tables[d.identifier]);
    }
  }

  lemma SettledHasSurface(db: Db, ds: seq<Definition>)
    requires Shaped(db) && ValidCatalog(ds) && WellNamed(ds) && Settled(db, ds)
    ensures SurfacePresent(db, ds)
  {
    SettledIsDescribed(db, ds);
    SurfaceRelations(ds);
    SurfaceColumns(ds);
    var surface := ColumnsByRelation(ds).value;
    forall t | t in surface ensures t in db.tables && surface[t] <= db.tables[t].columns.Keys {
      if t != SUBJECT_TABLE_NAME {
        var d :| d in ds && IsMulti(d) && d.identifier == t;
      }
    }
  }
}
