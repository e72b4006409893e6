/** Reconciling a tenant's generated tables with its catalog: DDL on a map from tables to columns,
    types and rows. */
module Reconcile {
  import opened Identifiers
  import opened Catalog

  datatype Cell = Null | Val(text: string)

  type Row = map<string, Cell>

  datatype Table = Table(columns: map<string, ColumnType>, rows: seq<Row>) {
    /** Every row has exactly the declared columns. */
    predicate Conforms() {
      forall i :: 0 <= i < |rows| ==> rows[i].Keys == columns.Keys
    }

    /** The column at a type, NULL in every row. */
    function WithNullColumn(column: string, columnType: ColumnType): (t: Table)
      ensures t.columns == columns[column := columnType]
      ensures |t.rows| == |rows|
      ensures forall i :: 0 <= i < |rows| ==> t.rows[i] == rows[i][column := Null]
    {
      Table(columns[column := columnType], seq(|rows|, i requires 0 <= i < |rows| => rows[i][column := Null]))
    }
  }

  /** One tenant schema, and the words its server takes for no column: keywords that need quoting and the
      system columns. Tables and indexes, those of primary keys among them, share one space of names. */
  datatype Db = Db(tables: map<string, Table>, indexes: set<string>, hasEntityStore: bool, reserved: set<string>)

  /** The generator writes column names unquoted. One that begins with a digit, or is reserved, is refused
      whether or not the column exists. The names fixed in the generator, and those behind `e_`, are bare. */
  predicate IsBare(column: string, reserved: set<string>) {
    column != "" && !('0' <= column[0] <= '9') && column !in reserved
  }

  predicate IsTaken(db: Db, name: string) {
    name in db.tables || name in db.indexes
  }

  function KeyNumber(n: nat): string {
    if n == 0 then "" else Digits(n)
  }

  /** The names the server tries for the index of a table's primary key: the table's, cut to fit, with `_pkey`
      and then `_pkey1`, `_pkey2`, ... behind it. */
  function KeyCandidate(table: string, n: nat): string {
    var ending := "_pkey" + KeyNumber(n);
    SliceTo(table, MAX_IDENTIFIER_LENGTH - |ending|) + ending
  }

  /** The first of them from the `n`-th on that is free. */
  function FreeKey(table: string, n: nat, taken: set<string>): string
    decreases |taken|
  {
    var c := KeyCandidate(table, n);
    if c !in taken then c else FreeKey(table, n + 1, taken - {c})
  }

  function KeyName(db: Db, table: string): string {
    FreeKey(table, 0, db.tables.Keys + db.indexes + {table})
  }

  /** `CREATE TABLE IF NOT EXISTS`: nothing if the name is taken, by a table or by an index; otherwise the
      table and the index of its primary key. */
  function WithTable(db: Db, table: string, columns: map<string, ColumnType>): Db {
    if IsTaken(db, table) then db
    else db.(tables := db.tables[table := Table(columns, [])], indexes := db.indexes + {KeyName(db, table)})
  }

  /** The four statement kinds the generator emits. */
  datatype Statement =
    | CreateTable(table: string, columns: map<string, ColumnType>)
    | CreateIndex(index: string, table: string, column: string)
    | AddColumn(table: string, column: string, columnType: ColumnType)
    | RetypeToNull(table: string, column: string, columnType: ColumnType)

  /** `CREATE ... IF NOT EXISTS`, `ADD COLUMN IF NOT EXISTS`, `ALTER COLUMN ... TYPE ... USING NULL`. */
  function Apply(db: Db, s: Statement): Result<Db> {
    match s
    case CreateTable(t, columns) => Ok(WithTable(db, t, columns))
    case CreateIndex(index, t, c) =>
      if t !in db.tables then Err(UndefinedTable(t))
      else if IsTaken(db, index) then Ok(db)
      else if c !in db.tables[t].columns then Err(UndefinedColumn(t, c))
      else Ok(db.(indexes := db.indexes + {index}))
    case AddColumn(t, c, columnType) =>
      if !IsBare(c, db.reserved) then Err(NotABareName(c))
      else if t !in db.tables then Err(UndefinedTable(t))
      else if c in db.tables[t].columns then Ok(db)
      else Ok(db.(tables := db.tables[t := db.tables[t].WithNullColumn(c, columnType)]))
    case RetypeToNull(t, c, columnType) =>
      if !IsBare(c, db.reserved) then Err(NotABareName(c))
      else if t !in db.tables then Err(UndefinedTable(t))
      else if c !in db.tables[t].columns then Err(UndefinedColumn(t, c))
      else Ok(db.(tables := db.tables[t := db.tables[t].WithNullColumn(c, columnType)]))
  }

  function ApplyAll(db: Db, ss: seq<Statement>): Result<Db>
    decreases |ss|
  {
    if ss == [] then Ok(db)
    else match Apply(db, ss[0])
      case Err(e) => Err(e)
      case Ok(db') => ApplyAll(db', ss[1..])
  }

  // ----- the statement builders -----

  /** `_CHILD_TABLE_COLUMNS`. */
  const CHILD_TABLE_COLUMNS: map<string, ColumnType> := map[
    "document_id" := Varchar, "value" := TextType, "normalized_value" := TextType,
    "value_number" := DoublePrecision, "value_number_high" := DoublePrecision,
    "value_date" := DateType, "value_date_high" := DateType, "value_unit" := TextType,
    "confidence" := DoublePrecision, "page_number" := IntegerType, "occurrence_count" := IntegerType]

  const SUBJECT_TABLE_COLUMNS: map<string, ColumnType> := map["document_id" := Varchar, "filename" := TextType]

  function ChildIndexName(identifier: string): string {
    SliceTo("idx_" + identifier + "_normalized_value", MAX_IDENTIFIER_LENGTH)
  }

  function ChildStatements(ms: seq<Definition>): Result<seq<Statement>> {
    if ms == [] then Ok([])
    else if !IsGenerated(ms[0].identifier) then Err(InvalidIdentifier(ms[0].identifier))
    else match ChildStatements(ms[1..])
      case Err(e) => Err(e)
      case Ok(rest) =>
        var t := ms[0].identifier;
        Ok([CreateTable(t, CHILD_TABLE_COLUMNS), CreateIndex(ChildIndexName(t), t, "normalized_value")] + rest)
  }

  function AddStatements(cs: seq<SubjectColumn>): seq<Statement> {
    if cs == [] then [] else [AddColumn(SUBJECT_TABLE_NAME, cs[0].name, cs[0].columnType)] + AddStatements(cs[1..])
  }

  /** `build_entity_table_statements`. */
  function EntityTableStatements(ds: seq<Definition>): Result<seq<Statement>> {
    match ChildStatements(Active(ds, CARDINALITY_MULTI))
    case Err(e) => Err(e)
    case Ok(children) =>
      match SubjectColumns(ds)
      case Err(e) => Err(e)
      case Ok(cs) => Ok(children + [CreateTable(SUBJECT_TABLE_NAME, SUBJECT_TABLE_COLUMNS)] + AddStatements(cs))
  }

  datatype Divergence = Divergence(column: string, actual: string, declared: ColumnType)

  /** Whether the reported type of a column is the one its definition declares. */
  predicate Agrees(actual: string, declared: ColumnType) {
    Lower(actual) == Lower(ExpectedReport(DeclaredType(declared)))
  }

  /** The loop of `diverging_subject_columns`: columns not there yet are no divergence. */
  function Diverging(cs: seq<SubjectColumn>, actual: map<string, string>): seq<Divergence> {
    if cs == [] then []
    else
      var c := cs[0];
      (if c.name in actual && !Agrees(actual[c.name], c.columnType)
       then [Divergence(c.name, actual[c.name], c.columnType)] else [])
      + Diverging(cs[1..], actual)
  }

  function RetypeStatements(vs: seq<Divergence>): seq<Statement> {
    if vs == [] then [] else [RetypeToNull(SUBJECT_TABLE_NAME, vs[0].column, vs[0].declared)] + RetypeStatements(vs[1..])
  }

  datatype Plan = Plan(statements: seq<Statement>, orphans: set<string>, offSurface: set<string>, retyped: seq<Divergence>)

  predicate IsRelation(name: string) {
    name == SUBJECT_TABLE_NAME || IsGenerated(name)
  }

  function GeneratedNames(names: set<string>): set<string> {
    set n | n in names && IsRelation(n)
  }

  /** `_reconcile_plan`. */
  function ReconcilePlan(ds: seq<Definition>, existing: set<string>, actual: map<string, string>): Result<Plan> {
    var renderable := Named(ds);
    var present := GeneratedNames(existing);
    match EntityTableStatements(renderable)
    case Err(e) => Err(e)
    case Ok(statements) =>
      match SubjectColumns(renderable)
      case Err(e) => Err(e)
      case Ok(cs) =>
        var retyped := Diverging(cs, actual);
        Ok(Plan(statements + RetypeStatements(retyped),
                present - CataloguedTables(renderable),
                (present * CataloguedTables(renderable)) - ExpectedTables(renderable),
                retyped))
  }

  /** The `information_schema` snapshot taken before any statement runs. */
  function SubjectTypes(db: Db): map<string, string> {
    if SUBJECT_TABLE_NAME in db.tables
    then map c | c in db.tables[SUBJECT_TABLE_NAME].columns :: ReportedType(db.tables[SUBJECT_TABLE_NAME].columns[c])
    else map[]
  }

  /** What one reconcile does to a schema. An error leaves the caller's transaction to roll back. */
  function Reconciled(db: Db, ds: seq<Definition>): Result<Db> {
    if !db.hasEntityStore then Ok(db)
    else match ReconcilePlan(ds, db.tables.Keys, SubjectTypes(db))
      case Err(e) => Err(e)
      case Ok(plan) => ApplyAll(db, plan.statements)
  }

  // ----- the executor -----

  /** The connection `reconcile_entity_tables_sync` holds: a schema it changes statement by statement. */
  class Connection {
    var db: Db

    constructor (db: Db)
      ensures this.db == db
    {
      this.db := db;
    }

    method Execute(s: Statement) returns (r: Result<()>)
      modifies this
      ensures match Apply(old(db), s) case Ok(after) => r == Ok(()) && db == after case Err(e) => r == Err(e) && db == old(db)
    {
      match Apply(db, s)
      case Err(e) => r := Err(e);
      case Ok(after) => db := after; r := Ok(());
    }

    /** `reconcile_entity_tables_sync`. */
    method ReconcileEntityTables(ds: seq<Definition>) returns (r: Result<seq<Statement>>)
      modifies this
      ensures match Reconciled(old(db), ds) case Ok(after) => r.Ok? && db == after case Err(e) => r == Err(e)
      ensures r.Ok? && old(db).hasEntityStore ==>
                ReconcilePlan(ds, old(db).tables.Keys, SubjectTypes(old(db))).Ok?
                && r.value == ReconcilePlan(ds, old(db).tables.Keys, SubjectTypes(old(db))).value.statements
    {
      if !db.hasEntityStore {
        return Ok([]);
      }
      var planned := ReconcilePlan(ds, db.tables.Keys, SubjectTypes(db));
      if planned.Err? {
        return Err(planned.error);
      }
      var outcome := ExecuteAll(planned.value.statements);
      if outcome.Err? {
        return Err(outcome.error);
      }
      return Ok(planned.value.statements);
    }

    /** The loop over the plan's statements; the first that fails ends it. */
    method ExecuteAll(statements: seq<Statement>) returns (r: Result<()>)
      modifies this
      ensures match ApplyAll(old(db), statements) case Ok(after) => r.Ok? && db == after case Err(e) => r == Err(e)
    {
      assert statements[0..] == statements;
      for i := 0 to |statements|
        invariant ApplyAll(old(db), statements) == ApplyAll(db, statements[i..])
      {
        assert statements[i..][1..] == statements[i + 1..];
        var outcome := Execute(statements[i]);
        if outcome.Err? {
          return Err(outcome.error);
        }
      }
      return Ok(());
    }
  }

  // ----- the effect of each group of statements -----

  predicate ShapedTable(name: string, t: Table) {
    && t.Conforms()
    && (name == SUBJECT_TABLE_NAME ==>
          forall c :: c in SUBJECT_TABLE_COLUMNS ==> c in t.columns && t.columns[c] == SUBJECT_TABLE_COLUMNS[c])
    && (IsGenerated(name) ==> t.columns == CHILD_TABLE_COLUMNS)
  }

  /** Every generated table has the shape the generator gives it, and no index has the name of `subject`. */
  predicate Shaped(db: Db) {
    && SUBJECT_TABLE_NAME !in db.indexes
    && forall n :: n in db.tables && IsRelation(n) ==> ShapedTable(n, db.tables[n])
  }

  lemma {:induction false} ApplyAllConcat(db: Db, ss: seq<Statement>, tt: seq<Statement>)
    ensures ApplyAll(db, ss + tt) ==
            match ApplyAll(db, ss) case Err(e) => Err(e) case Ok(mid) => ApplyAll(mid, tt)
    decreases |ss|
  {
    if ss == [] {
      assert ss + tt == tt;
    } else {
      assert (ss + tt)[1..] == ss[1..] + tt;
      if Apply(db, ss[0]).Ok? { ApplyAllConcat(Apply(db, ss[0]).value, ss[1..], tt); }
    }
  }

  function WithChildren(db: Db, ms: seq<Definition>): Db
    decreases |ms|
  {
    if ms == [] then db else WithChildren(WithChild(db, ms[0].identifier), ms[1..])
  }

  function WithChild(db: Db, t: string): Db {
    var created := WithTable(db, t, CHILD_TABLE_COLUMNS);
    if IsTaken(created, ChildIndexName(t)) then created else created.(indexes := created.indexes + {ChildIndexName(t)})
  }

  /** No child table finds its name taken by an index: one there before, or the key of a table created on
      the way. */
  predicate IsClear(db: Db, ms: seq<Definition>)
    decreases |ms|
  {
    ms == [] ||
    ((ms[0].identifier in db.tables || ms[0].identifier !in db.indexes) && IsClear(WithChild(db, ms[0].identifier), ms[1..]))
  }

  lemma GeneratedIsNotSubject(t: string)
    requires IsGenerated(t)
    ensures t != SUBJECT_TABLE_NAME
  {
    assert t[0] == IDENTIFIER_PREFIX[0];
  }

  lemma KeyCandidateIsNotSubject(t: string, n: nat)
    ensures KeyCandidate(t, n) != SUBJECT_TABLE_NAME
  {
    var ending := "_pkey" + KeyNumber(n);
    var head := SliceTo(t, MAX_IDENTIFIER_LENGTH - |ending|);
    assert KeyCandidate(t, n)[|head|] == ending[0] == '_';
    assert '_' !in SUBJECT_TABLE_NAME;
  }

  lemma KeyCandidateInjective(t: string, m: nat, n: nat)
    requires KeyCandidate(t, m) == KeyCandidate(t, n)
    ensures m == n
  {
    var p := KeyStem(t, m);
    var q := KeyStem(t, n);
    LastUnderscore(p, KeyEnding(m), q, KeyEnding(n));
    KeyEndingInjective(m, n);
  }

  function KeyEnding(n: nat): string {
    "pkey" + KeyNumber(n)
  }

  /** What a candidate keeps of the table's name. */
  lemma KeyStem(t: string, n: nat) returns (p: string)
    ensures KeyCandidate(t, n) == p + "_" + KeyEnding(n)
  {
    p := SliceTo(t, MAX_IDENTIFIER_LENGTH - |"_pkey" + KeyNumber(n)|);
    assert "_pkey" + KeyNumber(n) == "_" + KeyEnding(n);
  }

  lemma KeyEndingInjective(m: nat, n: nat)
    requires KeyEnding(m) == KeyEnding(n)
    ensures m == n
  {
    assert KeyEnding(m)[4..] == KeyNumber(m) && KeyEnding(n)[4..] == KeyNumber(n);
    if m > 0 && n > 0 { DigitsInjective(m, n); }
  }

  /** The key's name is free, and none the server tries before it is. */
  lemma {:induction false} FreeKeyIsFirst(t: string, n: nat, taken: set<string>) returns (k: nat)
    ensures n <= k && FreeKey(t, n, taken) == KeyCandidate(t, k) && KeyCandidate(t, k) !in taken
    ensures forall m :: n <= m < k ==> KeyCandidate(t, m) in taken
    decreases |taken|
  {
    var c := KeyCandidate(t, n);
    if c in taken {
      var fewer := taken - {c};
      k := FreeKeyIsFirst(t, n + 1, fewer);
      if KeyCandidate(t, k) == c { KeyCandidateInjective(t, k, n); }
      assert forall m :: n + 1 <= m < k ==> KeyCandidate(t, m) in fewer;
    } else {
      k := n;
    }
  }

  lemma ChildNamesAreNotSubject(db: Db, t: string)
    ensures KeyName(db, t) != SUBJECT_TABLE_NAME && ChildIndexName(t) != SUBJECT_TABLE_NAME
  {
    var k := FreeKeyIsFirst(t, 0, db.tables.Keys + db.indexes + {t});
    KeyCandidateIsNotSubject(t, k);
    assert ChildIndexName(t)[0] == 'i';
  }

  /** One child table and its index. */
  lemma ChildApplied(db: Db, t: string)
    requires Shaped(db) && IsGenerated(t) && (t in db.tables || t !in db.indexes)
    ensures var created := WithTable(db, t, CHILD_TABLE_COLUMNS);
            && Apply(db, CreateTable(t, CHILD_TABLE_COLUMNS)) == Ok(created)
            && Apply(created, CreateIndex(ChildIndexName(t), t, "normalized_value")) == Ok(WithChild(db, t))
    ensures Shaped(WithChild(db, t))
  {
    var created := WithTable(db, t, CHILD_TABLE_COLUMNS);
    GeneratedIsNotSubject(t);
    ChildNamesAreNotSubject(db, t);
    assert t in created.tables;
    assert ShapedTable(t, created.tables[t]);
    assert "normalized_value" in created.tables[t].columns;
  }

  lemma {:induction false} ChildrenApplied(db: Db, ms: seq<Definition>)
    requires Shaped(db) && ChildStatements(ms).Ok? && IsClear(db, ms)
    ensures ApplyAll(db, ChildStatements(ms).value) == Ok(WithChildren(db, ms))
    ensures Shaped(WithChildren(db, ms))
    decreases |ms|
  {
    if ms != [] {
      var ss := ChildStatements(ms).value;
      ChildApplied(db, ms[0].identifier);
      assert ss[1..][0] == ss[1] && ss[1..][1..] == ChildStatements(ms[1..]).value;
      ChildrenApplied(WithChild(db, ms[0].identifier), ms[1..]);
    }
  }

  /** A name taken by an index fails the list: the table is skipped, and its index finds no table. */
  lemma {:induction false} ChildrenRefused(db: Db, ms: seq<Definition>)
    requires Shaped(db) && ChildStatements(ms).Ok? && !IsClear(db, ms)
    ensures ApplyAll(db, ChildStatements(ms).value).Err?
    decreases |ms|
  {
    var t := ms[0].identifier;
    var ss := ChildStatements(ms).value;
    assert ss[1..][0] == ss[1] && ss[1..][1..] == ChildStatements(ms[1..]).value;
    if t in db.tables || t !in db.indexes {
      ChildApplied(db, t);
      ChildrenRefused(WithChild(db, t), ms[1..]);
    }
  }

  lemma ChildEffect(db: Db, t: string)
    requires t in db.tables || t !in db.indexes
    ensures var after := WithChild(db, t);
            && after.tables == (if t in db.tables then db.tables else db.tables[t := Table(CHILD_TABLE_COLUMNS, [])])
            && after.tables.Keys == db.tables.Keys + {t}
  {
  }

  lemma {:induction false} ChildrenEffect(db: Db, ms: seq<Definition>)
    requires IsClear(db, ms)
    ensures var after := WithChildren(db, ms);
            && after.tables.Keys == db.tables.Keys + (set d | d in ms :: d.identifier)
            && (forall t :: t in db.tables ==> after.tables[t] == db.tables[t])
            && (forall t :: t in after.tables && t !in db.tables ==> after.tables[t] == Table(CHILD_TABLE_COLUMNS, []))
    decreases |ms|
  {
    if ms != [] {
      var next := WithChild(db, ms[0].identifier);
      ChildEffect(db, ms[0].identifier);
      ChildrenEffect(next, ms[1..]);
      IdentifiersCons(ms);
    }
  }

  lemma IdentifiersCons(ms: seq<Definition>)
    requires ms != []
    ensures (set d | d in ms :: d.identifier) == {ms[0].identifier} + set d | d in ms[1..] :: d.identifier
  {
    assert ms == [ms[0]] + ms[1..];
  }

  lemma ChildIndexOrigin(db: Db, t: string, index: string)
    requires index in WithChild(db, t).indexes && IsGenerated(index)
    ensures index in db.indexes || index == KeyName(db, t)
  {
    assert ChildIndexName(t)[0] == 'i' && index[0] == IDENTIFIER_PREFIX[0];
  }

  /** A clash takes a new table's name that an index has, or that is the name of another table's key. */
  lemma {:induction false} ClashNeedsKeyName(db: Db, ms: seq<Definition>) returns (clash: Definition, other: Definition, n: nat)
    requires !IsClear(db, ms) && forall d :: d in ms ==> IsGenerated(d.identifier)
    ensures clash in ms && clash.identifier !in db.tables
    ensures clash.identifier in db.indexes || (other in ms && clash.identifier == KeyCandidate(other.identifier, n))
    decreases |ms|
  {
    var t := ms[0].identifier;
    if t in db.tables || t !in db.indexes {
      var next := WithChild(db, t);
      assert ms == [ms[0]] + ms[1..];
      clash, other, n := ClashNeedsKeyName(next, ms[1..]);
      ChildEffect(db, t);
      if clash.identifier in next.indexes && clash.identifier !in db.indexes {
        ChildIndexOrigin(db, t, clash.identifier);
        n := FreeKeyIsFirst(t, 0, db.tables.Keys + db.indexes + {t});
        other := ms[0];
      }
    } else {
      clash, other, n := ms[0], ms[0], 0;
    }
  }

  lemma {:induction false} ChildIndexesEffect(db: Db, ms: seq<Definition>)
    ensures var after := WithChildren(db, ms);
            && db.indexes <= after.indexes && db.tables.Keys <= after.tables.Keys
            && (forall d :: d in ms ==> IsTaken(after, ChildIndexName(d.identifier)))
            && after.hasEntityStore == db.hasEntityStore && after.reserved == db.reserved
    decreases |ms|
  {
    if ms != [] {
      var next := WithChild(db, ms[0].identifier);
      assert IsTaken(next, ChildIndexName(ms[0].identifier));
      ChildIndexesEffect(next, ms[1..]);
      assert ms == [ms[0]] + ms[1..];
    }
  }

  /** The schema with `subject` replaced. */
  function WithSubject(db: Db, t: Table): Db {
    db.(tables := db.tables[SUBJECT_TABLE_NAME := t])
  }

  lemma WithSubjectTwice(db: Db, t: Table, u: Table)
    ensures WithSubject(WithSubject(db, t), u) == WithSubject(db, u)
  {
    assert WithSubject(WithSubject(db, t), u).tables == WithSubject(db, u).tables;
  }

  lemma WithSameSubject(db: Db)
    requires SUBJECT_TABLE_NAME in db.tables
    ensures WithSubject(db, db.tables[SUBJECT_TABLE_NAME]) == db
  {
    assert WithSubject(db, db.tables[SUBJECT_TABLE_NAME]).tables == db.tables;
  }

  function WithColumns(t: Table, cs: seq<SubjectColumn>): Table
    decreases |cs|
  {
    if cs == [] then t
    else WithColumns(if cs[0].name in t.columns then t else t.WithNullColumn(cs[0].name, cs[0].columnType), cs[1..])
  }

  predicate AllBare(cs: seq<SubjectColumn>, reserved: set<string>) {
    forall i :: 0 <= i < |cs| ==> IsBare(cs[i].name, reserved)
  }

  /** One name the server refuses fails the whole list. */
  lemma {:induction false} ColumnsRefused(db: Db, cs: seq<SubjectColumn>)
    requires SUBJECT_TABLE_NAME in db.tables && !AllBare(cs, db.reserved)
    ensures ApplyAll(db, AddStatements(cs)).Err?
    decreases |cs|
  {
    if IsBare(cs[0].name, db.reserved) {
      assert AddStatements(cs)[1..] == AddStatements(cs[1..]);
      assert !AllBare(cs[1..], db.reserved) by {
        var k :| 0 <= k < |cs| && !IsBare(cs[k].name, db.reserved);
        assert cs[1..][k - 1] == cs[k];
      }
      ColumnsRefused(Apply(db, AddStatements(cs)[0]).value, cs[1..]);
    }
  }

  lemma {:induction false} ColumnsApplied(db: Db, cs: seq<SubjectColumn>)
    requires SUBJECT_TABLE_NAME in db.tables && AllBare(cs, db.reserved)
    ensures ApplyAll(db, AddStatements(cs)) ==
            Ok(WithSubject(db, WithColumns(db.tables[SUBJECT_TABLE_NAME], cs)))
    decreases |cs|
  {
    WithSameSubject(db);
    if cs != [] {
      var t := db.tables[SUBJECT_TABLE_NAME];
      var t1 := if cs[0].name in t.columns then t else t.WithNullColumn(cs[0].name, cs[0].columnType);
      assert AddStatements(cs)[1..] == AddStatements(cs[1..]);
      ColumnsApplied(WithSubject(db, t1), cs[1..]);
      WithSubjectTwice(db, t1, WithColumns(t, cs));
    }
  }

  function WithRetypes(t: Table, vs: seq<Divergence>): Table
    decreases |vs|
  {
    if vs == [] then t else WithRetypes(t.WithNullColumn(vs[0].column, vs[0].declared), vs[1..])
  }

  lemma {:induction false} RetypesApplied(db: Db, vs: seq<Divergence>)
    requires SUBJECT_TABLE_NAME in db.tables
    requires forall v :: v in vs ==> v.column in db.tables[SUBJECT_TABLE_NAME].columns && IsBare(v.column, db.reserved)
    ensures ApplyAll(db, RetypeStatements(vs)) ==
            Ok(WithSubject(db, WithRetypes(db.tables[SUBJECT_TABLE_NAME], vs)))
    decreases |vs|
  {
    WithSameSubject(db);
    if vs != [] {
      assert vs[0] in vs;
      var t := db.tables[SUBJECT_TABLE_NAME];
      var t1 := t.WithNullColumn(vs[0].column, vs[0].declared);
      assert RetypeStatements(vs)[1..] == RetypeStatements(vs[1..]);
      RetypesApplied(WithSubject(db, t1), vs[1..]);
      WithSubjectTwice(db, t1, WithRetypes(t, vs));
    }
  }

  /** Every row is kept, and every column and cell outside `cleared`; cleared and new cells are NULL. */
  predicate Keeps(t: Table, after: Table, cleared: set<string>) {
    && t.Conforms() && after.Conforms()
    && |after.rows| == |t.rows|
    && t.columns.Keys <= after.columns.Keys
    && (forall c :: c in t.columns && c !in cleared ==> after.columns[c] == t.columns[c])
    && (forall i, c :: 0 <= i < |t.rows| && c in t.columns ==>
          after.rows[i][c] == if c in cleared then Null else t.rows[i][c])
    && (forall i, c :: 0 <= i < |t.rows| && c in after.columns && c !in t.columns ==> after.rows[i][c] == Null)
  }

  lemma KeepsTransitive(t: Table, t1: Table, t2: Table, r1: set<string>, r2: set<string>)
    requires Keeps(t, t1, r1) && Keeps(t1, t2, r2)
    ensures Keeps(t, t2, r1 + r2)
  {
  }

  lemma NullColumnKeeps(t: Table, column: string, columnType: ColumnType)
    requires t.Conforms()
    ensures Keeps(t, t.WithNullColumn(column, columnType), {column})
    ensures column !in t.columns ==> Keeps(t, t.WithNullColumn(column, columnType), {})
    ensures t.WithNullColumn(column, columnType).WithNullColumn(column, columnType) == t.WithNullColumn(column, columnType)
  {
    var once := t.WithNullColumn(column, columnType);
    var twice := once.WithNullColumn(column, columnType);
    assert forall i :: 0 <= i < |t.rows| ==> twice.rows[i] == once.rows[i];
  }

  /** A statement that goes through drops nothing: other tables are untouched, and in its own table only
      the column it retypes loses its cells. Executed again it changes nothing. */
  lemma StatementKeeps(db: Db, s: Statement)
    requires Apply(db, s).Ok? && forall t :: t in db.tables ==> db.tables[t].Conforms()
    ensures var after := Apply(db, s).value;
            && db.tables.Keys <= after.tables.Keys <= db.tables.Keys + {s.table} && db.indexes <= after.indexes
            && (forall t :: t in db.tables && t != s.table ==> after.tables[t] == db.tables[t])
            && (s.table in db.tables ==>
                  Keeps(db.tables[s.table], after.tables[s.table], if s.RetypeToNull? then {s.column} else {}))
            && Apply(after, s) == Ok(after)
  {
    var after := Apply(db, s).value;
    if (s.RetypeToNull? || s.AddColumn?) && after != db {
      NullColumnKeeps(db.tables[s.table], s.column, s.columnType);
      if s.RetypeToNull? { assert after.tables[s.table := after.tables[s.table]] == after.tables; }
    }
  }

  lemma {:induction false} ColumnsKeep(t: Table, cs: seq<SubjectColumn>)
    requires t.Conforms()
    ensures Keeps(t, WithColumns(t, cs), {})
    decreases |cs|
  {
    if cs != [] {
      var t1 := if cs[0].name in t.columns then t else t.WithNullColumn(cs[0].name, cs[0].columnType);
      assert Keeps(t, t1, {});
      ColumnsKeep(t1, cs[1..]);
      KeepsTransitive(t, t1, WithColumns(t, cs), {}, {});
    }
  }

  predicate DistinctNames(cs: seq<SubjectColumn>) {
    forall i, j :: 0 <= i < j < |cs| ==> cs[i].name != cs[j].name
  }

  lemma {:induction false} ColumnsTypes(t: Table, cs: seq<SubjectColumn>)
    requires DistinctNames(cs)
    ensures forall c :: c in t.columns ==> c in WithColumns(t, cs).columns && WithColumns(t, cs).columns[c] == t.columns[c]
    ensures forall k :: 0 <= k < |cs| ==> cs[k].name in WithColumns(t, cs).columns
    ensures forall k :: 0 <= k < |cs| && cs[k].name !in t.columns ==>
              WithColumns(t, cs).columns[cs[k].name] == cs[k].columnType
    decreases |cs|
  {
    if cs != [] {
      var t1 := if cs[0].name in t.columns then t else t.WithNullColumn(cs[0].name, cs[0].columnType);
      ColumnsTypes(t1, cs[1..]);
      forall k | 1 <= k < |cs|
        ensures cs[k].name in WithColumns(t, cs).columns
        ensures cs[k].name !in t.columns ==> WithColumns(t, cs).columns[cs[k].name] == cs[k].columnType
      {
        assert cs[k] == cs[1..][k - 1];
      }
    }
  }

  function ClearedBy(vs: seq<Divergence>): set<string> {
    set v | v in vs :: v.column
  }

  lemma {:induction false} RetypesKeep(t: Table, vs: seq<Divergence>)
    requires t.Conforms()
    requires forall v :: v in vs ==> v.column in t.columns
    ensures Keeps(t, WithRetypes(t, vs), ClearedBy(vs))
    ensures WithRetypes(t, vs).columns.Keys == t.columns.Keys
    decreases |vs|
  {
    if vs != [] {
      assert vs[0] in vs;
      var t1 := t.WithNullColumn(vs[0].column, vs[0].declared);
      assert Keeps(t, t1, {vs[0].column});
      RetypesKeep(t1, vs[1..]);
      assert vs == [vs[0]] + vs[1..];
      assert ClearedBy(vs) == {vs[0].column} + ClearedBy(vs[1..]);
      KeepsTransitive(t, t1, WithRetypes(t, vs), {vs[0].column}, ClearedBy(vs[1..]));
    }
  }

  lemma {:induction false} RetypesTypes(t: Table, vs: seq<Divergence>)
    requires forall i, j :: 0 <= i < j < |vs| ==> vs[i].column != vs[j].column
    ensures forall c :: c in t.columns && c !in ClearedBy(vs) ==>
              c in WithRetypes(t, vs).columns && WithRetypes(t, vs).columns[c] == t.columns[c]
    ensures forall v :: v in vs ==> v.column in WithRetypes(t, vs).columns && WithRetypes(t, vs).columns[v.column] == v.declared
    decreases |vs|
  {
    if vs != [] {
      RetypesTypes(t.WithNullColumn(vs[0].column, vs[0].declared), vs[1..]);
      assert vs == [vs[0]] + vs[1..];
      assert vs[0].column !in ClearedBy(vs[1..]);
    }
  }

  /** The statements for the child tables: for each its table, at the columns of every child table, and an index on
      its `normalized_value`, right behind it. */
  lemma {:induction false} ChildStatementsAre(ms: seq<Definition>, i: nat)
    requires ChildStatements(ms).Ok? && i < |ms|
    ensures var ss := ChildStatements(ms).value;
            && |ss| == 2 * |ms|
            && ss[2 * i] == CreateTable(ms[i].identifier, CHILD_TABLE_COLUMNS)
            && ss[2 * i + 1] == CreateIndex(ChildIndexName(ms[i].identifier), ms[i].identifier, "normalized_value")
  {
    var rest := ChildStatements(ms[1..]).value;
    ChildStatementsLength(ms[1..]);
    assert ChildStatements(ms).value[2..] == rest;
    if i > 0 {
      ChildStatementsAre(ms[1..], i - 1);
      assert ChildStatements(ms).value[2 * i] == rest[2 * (i - 1)] && ChildStatements(ms).value[2 * i + 1] == rest[2 * (i - 1) + 1];
    }
  }

  lemma {:induction false} ChildStatementsLength(ms: seq<Definition>)
    requires ChildStatements(ms).Ok?
    ensures |ChildStatements(ms).value| == 2 * |ms|
  {
    if ms != [] { ChildStatementsLength(ms[1..]); }
  }

  // ----- names of indexes -----

  /** Identifiers of up to 42 characters have an index name of their own. */
  lemma OwnIndexName(s: string, t: string)
    requires |s| <= 42 && |t| <= 42
    ensures ChildIndexName(s) == "idx_" + s + "_normalized_value"
    ensures ChildIndexName(s) == ChildIndexName(t) <==> s == t
  {
    var a, b := "idx_" + s + "_normalized_value", "idx_" + t + "_normalized_value";
    assert |"_normalized_value"| == 17;
    if a == b { assert a[4..4 + |s|] == s && b[4..4 + |t|] == t; }
  }

  /** Identifiers of 59 characters and more have the index name of their first 59. */
  lemma SharesIndexIff(s: string, t: string)
    requires |s| >= 59 && |t| >= 59
    ensures ChildIndexName(s) == ChildIndexName(t) <==> s[..59] == t[..59]
  {
    LongIndexName(s);
    LongIndexName(t);
    if ChildIndexName(s) == ChildIndexName(t) { assert ChildIndexName(s)[4..] == s[..59] && ChildIndexName(t)[4..] == t[..59]; }
  }

  lemma LongIndexName(s: string)
    requires |s| >= 59
    ensures ChildIndexName(s) == "idx_" + s[..59]
  {
    var full := "idx_" + s + "_normalized_value";
    assert full[..63] == "idx_" + s[..59];
  }

  lemma ShortNumber(n: nat)
    requires n < 1000
    ensures |Digits(n)| <= 3
  {
    assert Pow10(1) == 10 by { assert Pow10(0) == 1; }
    assert Pow10(2) == 100;
    assert Pow10(3) == 1000;
    DigitsLength(n, 3);
  }

  lemma SuffixedIndexName(stem: string, n: nat)
    requires |stem| >= 63 && n < 1000
    ensures ChildIndexName(Suffixed(stem, n)) == ChildIndexName(stem[..63])
  {
    ShortNumber(n);
    SuffixedIs(stem, n);
    var room := 62 - |Digits(n)|;
    assert Suffixed(stem, n)[..59] == stem[..room][..59] == stem[..59] == stem[..63][..59];
    SharesIndexIff(Suffixed(stem, n), stem[..63]);
  }

  /** So a long name that needs a suffix gets a table whose index finds its name taken by the first one's, and is
      not created: a scan is the cost, as the generator says. */
  lemma SuffixedSharesIndex(db: Db, name: string, taken: set<string>)
    requires |"e_" + SlugBase(name)| >= 63 && |taken| + 2 < 1000
    requires var plain := ("e_" + SlugBase(name))[..63]; plain in taken && IsTaken(db, ChildIndexName(plain))
    ensures var t := SqlIdentifier(name, taken);
            t !in taken && (t in db.tables ==> Apply(db, CreateIndex(ChildIndexName(t), t, "normalized_value")) == Ok(db))
  {
    var stem := "e_" + SlugBase(name);
    FirstFreeIsLeast(stem, 2, taken);
    assert SliceTo(stem, MAX_IDENTIFIER_LENGTH) == stem[..63];
    SuffixedIndexName(stem, FirstFree(stem, 2, taken));
  }
}
