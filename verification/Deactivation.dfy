/** Deactivating definitions of a settled catalog: when it leaves the schema alone, and what it costs when
    it does not. */
module Deactivation {
  import opened Identifiers
  import opened Catalog
  import opened ColumnNames
  import opened Reconcile
  import opened ReconcileLaws

  /** `p` is what deactivations make of `q`: its owners are owners there. */
  predicate SubCatalog(p: seq<Definition>, q: seq<Definition>) {
    Deactivates(q, p) && forall d :: d in p && Owns(d, CARDINALITY_MULTI) ==> d in q
  }

  /** Behind every bumped stem stands no other, or one that may take its column over: of the same type,
      under a name the server takes. */
  predicate Harmless(q: seq<Definition>, reserved: set<string>) {
    forall d, e :: d in q && e in q && Owns(d, CARDINALITY_SINGLE) && Owns(e, CARDINALITY_SINGLE)
                   && Stripped(e) == Next(Stripped(d)) && Bumped(Stems(q), Stripped(d)) ==>
      SubjectColumnType(e.valueKind) == SubjectColumnType(d.valueKind) && IsBare(Stripped(e), reserved)
  }

  lemma IdleIff(db: Db, p: seq<Definition>)
    requires Shaped(db) && ValidCatalog(p) && db.hasEntityStore
    ensures Reconciled(db, p) == Ok(db) <==> Acceptable(db, p) && Settled(db, p)
  {
    ReconcileRefusedIff(db, p);
    if Acceptable(db, p) { ReconcileIdleIff(db, p); }
  }

  lemma SubCatalogWellNamed(p: seq<Definition>, q: seq<Definition>)
    requires SubCatalog(p, q) && WellNamed(q)
    ensures WellNamed(p)
  {
  }

  /** The column is in place at its type, under a name the server takes. */
  predicate InPlace(db: Db, c: SubjectColumn) {
    && SUBJECT_TABLE_NAME in db.tables && c.name in db.tables[SUBJECT_TABLE_NAME].columns
    && db.tables[SUBJECT_TABLE_NAME].columns[c.name] == c.columnType
    && IsBare(c.name, db.reserved)
  }

  lemma SettledInPlace(db: Db, q: seq<Definition>)
    requires Acceptable(db, q) && Settled(db, q)
    ensures forall c :: c in SubjectColumns(q).value ==> InPlace(db, c)
  {
    forall c | c in SubjectColumns(q).value ensures InPlace(db, c) {
      var i :| 0 <= i < |SubjectColumns(q).value| && SubjectColumns(q).value[i] == c;
    }
  }

  lemma InPlaceIsEnough(db: Db, p: seq<Definition>, q: seq<Definition>)
    requires Settled(db, q) && Acceptable(db, q) && SubCatalog(p, q) && SubjectColumns(p).Ok?
    requires forall c :: c in SubjectColumns(p).value ==> InPlace(db, c)
    ensures Settled(db, p) && Acceptable(db, p)
  {
    SubCatalogWellNamed(p, q);
    SettledIsCreatable(db, p);
    forall i | 0 <= i < |SubjectColumns(p).value| ensures IsBare(SubjectColumns(p).value[i].name, db.reserved) {
      assert SubjectColumns(p).value[i] in SubjectColumns(p).value;
    }
  }

  /** A column of the smaller catalog was in place already. */
  lemma ColumnInPlace(db: Db, p: seq<Definition>, q: seq<Definition>, c: SubjectColumn)
    requires ValidCatalog(q) && Acceptable(db, q) && Settled(db, q) && SubCatalog(p, q) && Harmless(q, db.reserved)
    requires SubjectColumns(p).Ok? && c in SubjectColumns(p).value
    ensures InPlace(db, c)
  {
    var s := Stripped(c.definition);
    SettledInPlace(db, q);
    DeactivatesColumns(q, p);
    ColumnNamesAre(p);
    if Bumped(Stems(p), s) {
      BumpedMonotone(Stems(p), Stems(q), s);
    } else if Bumped(Stems(q), s) {
      NextBase(s);
      var before := ColumnOfStem(q, Base(s));
      assert before.name == s;
      TypesMatch(p, q, before, c, db.reserved);
    }
  }

  lemma TypesMatch(p: seq<Definition>, q: seq<Definition>, before: SubjectColumn, c: SubjectColumn, reserved: set<string>)
    requires ValidCatalog(q) && SubCatalog(p, q) && Harmless(q, reserved) && SubjectColumns(p).Ok? && SubjectColumns(q).Ok?
    requires c in SubjectColumns(p).value && before in SubjectColumns(q).value
    requires Stripped(c.definition) == Next(Stripped(before.definition)) && Bumped(Stems(q), Stripped(before.definition))
    ensures c.columnType == before.columnType
  {
    SubjectColumnsDistinct(p);
    SubjectColumnsDistinct(q);
    var d, e := before.definition, c.definition;
    assert d in q && Owns(d, CARDINALITY_SINGLE);
    assert e in p && Owns(e, CARDINALITY_SINGLE) && e in q;
  }

  lemma HarmlessKeeps(db: Db, q: seq<Definition>, p: seq<Definition>)
    requires Shaped(db) && db.hasEntityStore && ValidCatalog(q) && Acceptable(db, q) && Settled(db, q)
    requires Harmless(q, db.reserved) && SubCatalog(p, q)
    ensures Reconciled(db, p) == Ok(db)
  {
    DeactivatesColumns(q, p);
    forall c | c in SubjectColumns(p).value ensures InPlace(db, c) { ColumnInPlace(db, p, q, c); }
    InPlaceIsEnough(db, p, q);
    IdleIff(db, p);
  }

  lemma DeactivatedIsSub(q: seq<Definition>, identifier: string)
    requires ValidCatalog(q)
    ensures SubCatalog(Deactivated(q, identifier), q)
  {
    DeactivatedDeactivates(q, identifier);
    var p := Deactivated(q, identifier);
    forall d | d in p && Owns(d, CARDINALITY_MULTI) ensures d in q {
      var i :| 0 <= i < |p| && p[i] == d;
      assert q[i] == d;
    }
  }

  lemma SameStem(q: seq<Definition>, d: Definition, e: Definition)
    requires ValidCatalog(q) && SubjectColumns(q).Ok? && d in q && e in q
    requires Owns(d, CARDINALITY_SINGLE) && Owns(e, CARDINALITY_SINGLE) && Stripped(d) == Stripped(e)
    ensures d == e
  {
    SubjectColumnsDistinct(q);
    assert IsGenerated(d.identifier) && IsGenerated(e.identifier);
    assert d.identifier == "e_" + Stripped(d) && e.identifier == "e_" + Stripped(e);
    var i :| 0 <= i < |q| && q[i] == d;
    var j :| 0 <= j < |q| && q[j] == e;
  }

  /** The two columns that meet when `d` is switched off. */
  lemma TakenOver(q: seq<Definition>, d: Definition, e: Definition) returns (before: SubjectColumn, after: SubjectColumn)
    requires ValidCatalog(q) && SubjectColumns(q).Ok? && d in q && e in q
    requires Owns(d, CARDINALITY_SINGLE) && Owns(e, CARDINALITY_SINGLE)
    requires Stripped(e) == Next(Stripped(d)) && Bumped(Stems(q), Stripped(d))
    ensures before in SubjectColumns(q).value && before.name == Stripped(e)
    ensures before.columnType == SubjectColumnType(d.valueKind)
    ensures var p := Deactivated(q, d.identifier);
            && SubCatalog(p, q) && SubjectColumns(p).Ok? && after in SubjectColumns(p).value
            && after.name == Stripped(e) && after.columnType == SubjectColumnType(e.valueKind)
  {
    SubjectColumnsDistinct(q);
    var s := Stripped(d);
    assert d.identifier == "e_" + s && s != "" by { assert IsGenerated(d.identifier); }
    before := ColumnOfStem(q, s);
    SameStem(q, before.definition, d);
    after := ColumnMoves(q, s);
    var p := Deactivated(q, d.identifier);
    SubjectColumnsDistinct(p);
    DeactivatedOwns(q, d.identifier, after.definition);
    SameStem(q, after.definition, e);
    DeactivatedIsSub(q, d.identifier);
  }

  lemma HarmfulLoses(db: Db, q: seq<Definition>, d: Definition, e: Definition)
    requires Shaped(db) && db.hasEntityStore && ValidCatalog(q) && Acceptable(db, q) && Settled(db, q)
    requires d in q && e in q && Owns(d, CARDINALITY_SINGLE) && Owns(e, CARDINALITY_SINGLE)
    requires Stripped(e) == Next(Stripped(d)) && Bumped(Stems(q), Stripped(d))
    requires !(SubjectColumnType(e.valueKind) == SubjectColumnType(d.valueKind) && IsBare(Stripped(e), db.reserved))
    ensures SubCatalog(Deactivated(q, d.identifier), q) && Reconciled(db, Deactivated(q, d.identifier)) != Ok(db)
  {
    var before, after := TakenOver(q, d, e);
    var p := Deactivated(q, d.identifier);
    IdleIff(db, p);
    if Acceptable(db, p) && Settled(db, p) { SettledInPlace(db, p); }
  }

  /** Deactivations of a settled catalog change nothing on disk, for all choices of definitions, exactly
      when no definition can take over the column of one before it at another type, or under a name the
      server refuses. Activating again is then free as well. */
  lemma DeactivationIdleIff(db: Db, q: seq<Definition>)
    requires Shaped(db) && db.hasEntityStore && ValidCatalog(q) && Acceptable(db, q) && Settled(db, q)
    ensures (forall p :: SubCatalog(p, q) ==> Reconciled(db, p) == Ok(db)) <==> Harmless(q, db.reserved)
    ensures Reconciled(db, q) == Ok(db)
  {
    IdleIff(db, q);
    if Harmless(q, db.reserved) {
      forall p | SubCatalog(p, q) ensures Reconciled(db, p) == Ok(db) { HarmlessKeeps(db, q, p); }
    } else {
      var d, e :| d in q && e in q && Owns(d, CARDINALITY_SINGLE) && Owns(e, CARDINALITY_SINGLE)
                  && Stripped(e) == Next(Stripped(d)) && Bumped(Stems(q), Stripped(d))
                  && !(SubjectColumnType(e.valueKind) == SubjectColumnType(d.valueKind) && IsBare(Stripped(e), db.reserved));
      HarmfulLoses(db, q, d, e);
    }
  }

  /** In particular when no definition strips to an identity column. */
  lemma DeactivationKeepsEverything(db: Db, p: seq<Definition>, q: seq<Definition>)
    requires Shaped(db) && db.hasEntityStore && ValidCatalog(q) && Acceptable(db, q) && Settled(db, q)
    requires SubCatalog(p, q) && !Chained(q)
    ensures Reconciled(db, p) == Ok(db)
  {
    forall d, e | d in q && e in q && Owns(d, CARDINALITY_SINGLE) && Owns(e, CARDINALITY_SINGLE)
                  && Stripped(e) == Next(Stripped(d)) && Bumped(Stems(q), Stripped(d)) ensures false
    {
      assert Stripped(d) in Stems(q) && Stripped(e) in Stems(q);
      if Stripped(d) !in IdentityColumns() { BumpedStartsChain(Stems(q), Stripped(d)); }
    }
    HarmlessKeeps(db, q, p);
  }

  /** Data are lost when the types differ: whatever the settled schema held, after
      `e_filename` is switched off, `filename_2` has another definition's type and is NULL in every
      row. */
  lemma DeactivationClearsOnIdentityHit(db: Db, before: Table)
    requires Shaped(db) && db.hasEntityStore && Settled(db, [FILENAME, FILENAME_2]) && "filename_2" !in db.reserved
    requires before == db.tables[SUBJECT_TABLE_NAME]
    ensures "filename_2" in before.columns && before.columns["filename_2"] == TextType
    ensures Reconciled(db, [FILENAME_OFF, FILENAME_2]).Ok?
    ensures ClearedIn(before, Reconciled(db, [FILENAME_OFF, FILENAME_2]).value, "filename_2")
  {
    var p := [FILENAME_OFF, FILENAME_2];
    ColumnMovesOnIdentityHit();
    var cs := SubjectColumns([FILENAME, FILENAME_2]).value;
    assert cs[0] in cs;
    FilenameOffAcceptable(db);
    ReconcileEffect(db, p);
    RetypedIff(db, p, "filename_2");
    assert SubjectColumns(p).value[0] in SubjectColumns(p).value;
    KeepsClears(before, Reconciled(db, p).value, ClearedBy(RetypedColumns(db, p)), "filename_2");
  }

  lemma FilenameOffAcceptable(db: Db)
    requires "filename_2" !in db.reserved
    ensures ValidCatalog([FILENAME_OFF, FILENAME_2]) && Acceptable(db, [FILENAME_OFF, FILENAME_2])
  {
    var p := [FILENAME_OFF, FILENAME_2];
    FilenamePairValid();
    FilenameColumnsOff();
    assert IsBare("filename_2", db.reserved) by { assert "filename_2"[0] == 'f'; }
    assert CARDINALITY_MULTI[0] != CARDINALITY_SINGLE[0];
    NoneActive(p, CARDINALITY_MULTI);
  }

  predicate ClearedIn(before: Table, after: Db, column: string) {
    && SUBJECT_TABLE_NAME in after.tables
    && |after.tables[SUBJECT_TABLE_NAME].rows| == |before.rows|
    && forall i :: 0 <= i < |before.rows| ==>
         column in after.tables[SUBJECT_TABLE_NAME].rows[i] && after.tables[SUBJECT_TABLE_NAME].rows[i][column] == Null
  }

  lemma KeepsClears(before: Table, after: Db, cleared: set<string>, column: string)
    requires SUBJECT_TABLE_NAME in after.tables && Keeps(before, after.tables[SUBJECT_TABLE_NAME], cleared)
    requires column in cleared && column in before.columns
    ensures ClearedIn(before, after, column)
  {
  }

  lemma FilenamePairValid()
    ensures ValidCatalog([FILENAME_OFF, FILENAME_2]) && WellNamed([FILENAME_OFF, FILENAME_2])
  {
    StrippedPair();
    assert |FILENAME_OFF.identifier| == 10 && |FILENAME_2.identifier| == 12;
  }
}
