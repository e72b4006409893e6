/** The entity catalog and the relational layout it implies: ordering, the `subject` columns, the
    table names, and the query surface. */
module Catalog {
  import opened Identifiers

  datatype Result<+T> = Ok(value: T) | Err(error: Error)

  datatype Error =
    | InvalidIdentifier(identifier: string)
    | UndefinedTable(table: string)
    | UndefinedColumn(table: string, column: string)
    | NotABareName(column: string)

  const CARDINALITY_SINGLE := "single"
  const CARDINALITY_MULTI := "multi"
  const SUBJECT_TABLE_NAME := "subject"
  const SUBJECT_IDENTITY_COLUMNS: seq<string> := ["document_id", "filename"]

  /** One row of `public.entity_definitions`. A NULL identifier or kind is the empty string: every
      reader tests them for truth only. */
  datatype Definition = Definition(
    name: string,
    identifier: string,
    cardinality: string,
    valueKind: string,
    isActive: bool)

  // ----- ordering -----

  /** Python's `<` on strings. */
  predicate Before(s: string, t: string) {
    t != "" && (s == "" || s[0] < t[0] || (s[0] == t[0] && Before(s[1..], t[1..])))
  }

  predicate KeyBefore(a: Definition, b: Definition) {
    Before(a.identifier, b.identifier) || (a.identifier == b.identifier && Before(a.name, b.name))
  }

  function Insert(d: Definition, ds: seq<Definition>): seq<Definition> {
    if ds == [] || !KeyBefore(ds[0], d) then [d] + ds else [ds[0]] + Insert(d, ds[1..])
  }

  /** `_ordered`: a stable sort by identifier, then name. */
  function Ordered(ds: seq<Definition>): seq<Definition> {
    if ds == [] then [] else Insert(ds[0], Ordered(ds[1..]))
  }

  predicate Owns(d: Definition, cardinality: string) {
    d.isActive && d.cardinality == cardinality && d.identifier != ""
  }

  function Select(ds: seq<Definition>, cardinality: string): seq<Definition> {
    if ds == [] then []
    else (if Owns(ds[0], cardinality) then [ds[0]] else []) + Select(ds[1..], cardinality)
  }

  /** `_active`. */
  function Active(ds: seq<Definition>, cardinality: string): seq<Definition> {
    Select(Ordered(ds), cardinality)
  }

  /** The partial unique index on `(tenant_id, sql_identifier)`. */
  predicate DistinctIdentifiers(ds: seq<Definition>) {
    forall i, j :: 0 <= i < j < |ds| && ds[i].identifier == ds[j].identifier ==> ds[i].identifier == ""
  }

  predicate StrictlyOrdered(ds: seq<Definition>) {
    forall i, j :: 0 <= i < j < |ds| ==> Before(ds[i].identifier, ds[j].identifier)
  }

  lemma {:induction false} BeforeTransitive(r: string, s: string, t: string)
    requires Before(r, s) && Before(s, t)
    ensures Before(r, t)
  {
    if r != "" && r[0] == s[0] == t[0] { BeforeTransitive(r[1..], s[1..], t[1..]); }
  }

  lemma {:induction false} BeforeIrreflexive(s: string)
    ensures !Before(s, s)
  {
    if s != "" { BeforeIrreflexive(s[1..]); }
  }

  lemma {:induction false} BeforeTotal(s: string, t: string)
    ensures Before(s, t) || s == t || Before(t, s)
  {
    if s != "" && t != "" && s[0] == t[0] {
      BeforeTotal(s[1..], t[1..]);
      assert s == [s[0]] + s[1..] && t == [t[0]] + t[1..];
    }
  }

  /** The strings agree up to `k`, and there `s` ends or has the lesser character. */
  predicate LessAt(s: string, t: string, k: nat) {
    k <= |s| && k < |t| && s[..k] == t[..k] && (k == |s| || s[k] < t[k])
  }

  /** The order is the lexicographic one: the first difference decides, and a proper prefix comes first. */
  lemma {:induction false} BeforeIff(s: string, t: string)
    ensures Before(s, t) <==> exists k: nat :: LessAt(s, t, k)
  {
    forall k: nat | k > 0 && LessAt(s, t, k) ensures s != "" && t != "" && s[0] == t[0] {
      assert s[..k][0] == s[0] && t[..k][0] == t[0];
    }
    if t != "" && s != "" && s[0] == t[0] {
      BeforeIff(s[1..], t[1..]);
      if k: nat :| LessAt(s[1..], t[1..], k) {
        assert s[..k + 1] == [s[0]] + s[1..][..k] && t[..k + 1] == [t[0]] + t[1..][..k];
        assert LessAt(s, t, k + 1);
      }
      if k: nat :| LessAt(s, t, k) {
        assert s[1..][..k - 1] == s[..k][1..] && t[1..][..k - 1] == t[..k][1..];
        assert LessAt(s[1..], t[1..], k - 1);
      }
    } else {
      if Before(s, t) { assert LessAt(s, t, 0); }
    }
  }

  lemma {:induction false} InsertMembers(d: Definition, ds: seq<Definition>)
    ensures multiset(Insert(d, ds)) == multiset(ds) + multiset{d}
  {
    if !(ds == [] || !KeyBefore(ds[0], d)) {
      InsertMembers(d, ds[1..]);
      assert ds == [ds[0]] + ds[1..];
    }
  }

  lemma {:induction false} OrderedMembers(ds: seq<Definition>)
    ensures multiset(Ordered(ds)) == multiset(ds)
  {
    if ds != [] {
      OrderedMembers(ds[1..]);
      InsertMembers(ds[0], Ordered(ds[1..]));
      assert ds == [ds[0]] + ds[1..];
    }
  }

  lemma {:induction false} SelectMembers(ds: seq<Definition>, cardinality: string)
    ensures forall d :: d in Select(ds, cardinality) <==> d in ds && Owns(d, cardinality)
  {
    if ds != [] {
      SelectMembers(ds[1..], cardinality);
      assert ds == [ds[0]] + ds[1..];
    }
  }

  lemma ActiveMembers(ds: seq<Definition>, cardinality: string)
    ensures forall d :: d in Active(ds, cardinality) <==> d in ds && Owns(d, cardinality)
  {
    OrderedMembers(ds);
    SelectMembers(Ordered(ds), cardinality);
    forall d ensures d in Ordered(ds) <==> d in ds {
      assert d in Ordered(ds) <==> d in multiset(Ordered(ds));
    }
  }

  lemma {:induction false} SelectNone(ds: seq<Definition>, cardinality: string)
    requires forall d :: d in ds ==> !Owns(d, cardinality)
    ensures Select(ds, cardinality) == []
  {
    if ds != [] {
      assert ds[0] in ds;
      SelectNone(ds[1..], cardinality);
    }
  }

  lemma NoneActive(ds: seq<Definition>, cardinality: string)
    requires forall d :: d in ds ==> !Owns(d, cardinality)
    ensures Active(ds, cardinality) == []
  {
    OrderedMembers(ds);
    forall d | d in Ordered(ds) ensures !Owns(d, cardinality) { assert d in multiset(Ordered(ds)); }
    SelectNone(Ordered(ds), cardinality);
  }

  /** What is left after dropping the definitions no table or column belongs to. */
  function Named(ds: seq<Definition>): seq<Definition> {
    if ds == [] then [] else (if ds[0].identifier != "" then [ds[0]] else []) + Named(ds[1..])
  }

  lemma {:induction false} NamedMembers(ds: seq<Definition>)
    ensures forall d :: d in Named(ds) <==> d in ds && d.identifier != ""
  {
    if ds != [] { NamedMembers(ds[1..]); assert ds == [ds[0]] + ds[1..]; }
  }

  lemma PrependOrdered(d: Definition, s: seq<Definition>)
    requires StrictlyOrdered(s) && forall e :: e in s ==> Before(d.identifier, e.identifier)
    ensures StrictlyOrdered([d] + s)
  {
    var all := [d] + s;
    forall i, j | 0 <= i < j < |all| ensures Before(all[i].identifier, all[j].identifier) {
      assert all[j] == s[j - 1] && s[j - 1] in s;
      if i > 0 { assert all[i] == s[i - 1]; }
    }
  }

  /** In front of a strict order, a definition that is below its first stays in order. */
  lemma InsertFirst(d: Definition, ds: seq<Definition>)
    requires StrictlyOrdered(Named(ds)) && (ds == [] || !KeyBefore(ds[0], d))
    requires d.identifier != "" ==> forall e :: e in ds ==> e.identifier != d.identifier
    ensures StrictlyOrdered(Named([d] + ds))
  {
    assert ([d] + ds)[1..] == ds;
    NamedMembers(ds);
    if ds != [] && d.identifier != "" {
      assert ds[0] in ds;
      BeforeTotal(d.identifier, ds[0].identifier);
      assert ds[0].identifier != "";
      FirstIsLeast(ds);
      forall e | e in Named(ds) ensures Before(d.identifier, e.identifier) {
        if e != ds[0] { BeforeTransitive(d.identifier, ds[0].identifier, e.identifier); }
      }
      PrependOrdered(d, Named(ds));
    }
  }

  lemma {:induction false} InsertOrdered(d: Definition, ds: seq<Definition>)
    requires StrictlyOrdered(Named(ds))
    requires d.identifier != "" ==> forall e :: e in ds ==> e.identifier != d.identifier
    ensures StrictlyOrdered(Named(Insert(d, ds)))
  {
    if ds == [] || !KeyBefore(ds[0], d) {
      InsertFirst(d, ds);
    } else {
      TailOrdered(ds);
      InsertOrdered(d, ds[1..]);
      InsertRest(d, ds);
    }
  }

  lemma RestIsLater(d: Definition, ds: seq<Definition>, e: Definition)
    requires ds != [] && ds[0].identifier != "" && KeyBefore(ds[0], d) && StrictlyOrdered(Named(ds))
    requires d.identifier != ds[0].identifier && e in Insert(d, ds[1..]) && e.identifier != ""
    ensures Before(ds[0].identifier, e.identifier)
  {
    if e != d {
      InsertMembers(d, ds[1..]);
      assert e in multiset(Insert(d, ds[1..]));
      assert e in multiset(ds[1..]);
      NamedMembers(ds[1..]);
      FirstIsLeast(ds);
    }
  }

  lemma InsertRest(d: Definition, ds: seq<Definition>)
    requires ds != [] && KeyBefore(ds[0], d) && StrictlyOrdered(Named(ds)) && StrictlyOrdered(Named(Insert(d, ds[1..])))
    requires d.identifier != "" ==> forall e :: e in ds ==> e.identifier != d.identifier
    ensures StrictlyOrdered(Named(Insert(d, ds)))
  {
    var r := Insert(d, ds[1..]);
    assert Insert(d, ds)[1..] == r;
    if ds[0].identifier != "" {
      assert ds[0] in ds;
      NamedMembers(r);
      forall e | e in Named(r) ensures Before(ds[0].identifier, e.identifier) { RestIsLater(d, ds, e); }
      PrependOrdered(ds[0], Named(r));
    }
  }

  lemma SuffixOrdered(p: seq<Definition>, q: seq<Definition>)
    requires StrictlyOrdered(p + q)
    ensures StrictlyOrdered(q)
  {
    var all := p + q;
    forall i, j | 0 <= i < j < |q| ensures Before(q[i].identifier, q[j].identifier) {
      assert Before(all[|p| + i].identifier, all[|p| + j].identifier);
    }
  }

  lemma TailOrdered(ds: seq<Definition>)
    requires ds != [] && StrictlyOrdered(Named(ds))
    ensures StrictlyOrdered(Named(ds[1..]))
  {
    SuffixOrdered(if ds[0].identifier != "" then [ds[0]] else [], Named(ds[1..]));
  }

  lemma FirstIsLeast(ds: seq<Definition>)
    requires ds != [] && StrictlyOrdered(Named(ds)) && ds[0].identifier != ""
    ensures forall e :: e in Named(ds[1..]) ==> Before(ds[0].identifier, e.identifier)
    ensures forall e :: e in Named(ds) ==> e == ds[0] || e in Named(ds[1..])
  {
    assert Named(ds) == [ds[0]] + Named(ds[1..]);
    forall e | e in Named(ds[1..]) ensures Before(ds[0].identifier, e.identifier) {
      var k :| 0 <= k < |Named(ds[1..])| && Named(ds[1..])[k] == e;
      assert Named(ds)[0] == ds[0] && Named(ds)[k + 1] == e;
    }
  }

  lemma {:induction false} OrderedStrictly(ds: seq<Definition>)
    requires DistinctIdentifiers(ds)
    ensures StrictlyOrdered(Named(Ordered(ds)))
  {
    if ds != [] {
      assert forall i :: 0 <= i < |ds[1..]| ==> ds[1..][i] == ds[i + 1];
      OrderedStrictly(ds[1..]);
      OrderedMembers(ds[1..]);
      forall e | ds[0].identifier != "" && e in Ordered(ds[1..]) ensures e.identifier != ds[0].identifier {
        assert e in multiset(Ordered(ds[1..]));
        var k :| 0 <= k < |ds[1..]| && ds[1..][k] == e;
      }
      InsertOrdered(ds[0], Ordered(ds[1..]));
    }
  }

  lemma {:induction false} SelectOrdered(ds: seq<Definition>, cardinality: string)
    requires StrictlyOrdered(Named(ds))
    ensures StrictlyOrdered(Select(ds, cardinality))
  {
    if ds != [] {
      TailOrdered(ds);
      SelectOrdered(ds[1..], cardinality);
      SelectMembers(ds[1..], cardinality);
      NamedMembers(ds[1..]);
      if Owns(ds[0], cardinality) {
        FirstIsLeast(ds);
        var rest := Select(ds[1..], cardinality);
        forall e | e in rest ensures Before(ds[0].identifier, e.identifier) {}
        assert Select(ds, cardinality) == [ds[0]] + rest;
      }
    }
  }

  lemma ActiveOrdered(ds: seq<Definition>, cardinality: string)
    requires DistinctIdentifiers(ds)
    ensures StrictlyOrdered(Active(ds, cardinality))
  {
    OrderedStrictly(ds);
    SelectOrdered(Ordered(ds), cardinality);
  }

  lemma {:induction false} StrictOrderUnique(p: seq<Definition>, q: seq<Definition>)
    requires StrictlyOrdered(p) && StrictlyOrdered(q)
    requires forall d :: d in p <==> d in q
    ensures p == q
  {
    assert forall i :: 0 <= i < |p| ==> p[i] in q;
    assert forall i :: 0 <= i < |q| ==> q[i] in p;
    if p != [] && q != [] {
      assert p[0] in q && q[0] in p;
      if p[0] != q[0] {
        BeforeTransitive(p[0].identifier, q[0].identifier, p[0].identifier);
        BeforeIrreflexive(p[0].identifier);
        assert false;
      }
      forall d ensures d in p[1..] <==> d in q[1..] { TailMember(p, d); TailMember(q, d); }
      StrictOrderUnique(p[1..], q[1..]);
      assert p == [p[0]] + p[1..] && q == [q[0]] + q[1..];
    }
  }

  lemma TailMember(p: seq<Definition>, d: Definition)
    requires p != [] && StrictlyOrdered(p)
    ensures d in p[1..] <==> d in p && d != p[0]
  {
    BeforeIrreflexive(p[0].identifier);
    if d in p && d != p[0] {
      var k :| 0 <= k < |p| && p[k] == d;
      assert p[1..][k - 1] == d;
    }
  }

  /** The layout is a function of the catalog, not of the order its rows were read in. */
  lemma ActiveIgnoresRowOrder(p: seq<Definition>, q: seq<Definition>, cardinality: string)
    requires DistinctIdentifiers(p) && DistinctIdentifiers(q)
    requires forall d :: d in p <==> d in q
    ensures Active(p, cardinality) == Active(q, cardinality)
  {
    ActiveOrdered(p, cardinality); ActiveOrdered(q, cardinality);
    ActiveMembers(p, cardinality); ActiveMembers(q, cardinality);
    StrictOrderUnique(Active(p, cardinality), Active(q, cardinality));
  }

  // ----- column types -----

  datatype ColumnType = Varchar | TextType | DoublePrecision | DateType | IntegerType

  /** How `information_schema.columns.data_type` spells a type. */
  function ReportedType(t: ColumnType): string {
    match t
    case Varchar => "character varying"
    case TextType => "text"
    case DoublePrecision => "double precision"
    case DateType => "date"
    case IntegerType => "integer"
  }

  /** The spelling a type has in generated DDL. */
  function DeclaredType(t: ColumnType): string {
    match t
    case Varchar => "VARCHAR"
    case TextType => "TEXT"
    case DoublePrecision => "DOUBLE PRECISION"
    case DateType => "DATE"
    case IntegerType => "INTEGER"
  }

  /** `_INFORMATION_SCHEMA_TYPE.get(declared, declared)`. */
  function ExpectedReport(declared: string): string {
    if declared == "TEXT" then "text"
    else if declared == "DOUBLE PRECISION" then "double precision"
    else if declared == "DATE" then "date"
    else declared
  }

  /** `subject_column_type`. */
  function SubjectColumnType(valueKind: string): ColumnType {
    if valueKind in ["number", "money", "duration", "boolean"] then DoublePrecision
    else if valueKind == "date" then DateType
    else TextType
  }

  // ----- subject columns -----

  datatype SubjectColumn = SubjectColumn(definition: Definition, name: string, columnType: ColumnType)

  /** What `_unique_column` computes. */
  function UniqueColumn(candidate: string, taken: set<string>): string {
    if candidate !in taken then SliceTo(candidate, MAX_IDENTIFIER_LENGTH)
    else Suffixed(candidate, FirstFree(candidate, 2, taken))
  }

  method UniqueColumnName(candidate: string, taken: set<string>) returns (name: string)
    ensures name == UniqueColumn(candidate, taken)
  {
    if candidate !in taken {
      return SliceTo(candidate, MAX_IDENTIFIER_LENGTH);
    }
    name := NextFree(candidate, taken);
  }

  /** The name is free except when a candidate past the length limit is cut into a taken one: the
      membership test looks at the candidate before the cut. */
  lemma UniqueColumnFreeIff(candidate: string, taken: set<string>)
    ensures UniqueColumn(candidate, taken) in taken <==>
            candidate !in taken && SliceTo(candidate, MAX_IDENTIFIER_LENGTH) in taken
    ensures |candidate| <= MAX_IDENTIFIER_LENGTH ==> UniqueColumn(candidate, taken) !in taken
  {
    FirstFreeIsLeast(candidate, 2, taken);
  }

  function Stripped(d: Definition): string {
    if |d.identifier| <= 2 then FALLBACK_SLUG else d.identifier[2..]
  }

  function Project(ds: seq<Definition>, taken: set<string>): Result<seq<SubjectColumn>> {
    if ds == [] then Ok([])
    else if !IsGenerated(ds[0].identifier) then Err(InvalidIdentifier(ds[0].identifier))
    else
      var name := UniqueColumn(Stripped(ds[0]), taken);
      Prepend([SubjectColumn(ds[0], name, SubjectColumnType(ds[0].valueKind))], Project(ds[1..], taken + {name}))
  }

  function IdentityColumns(): set<string> {
    {"document_id", "filename"}
  }

  /** What `subject_columns` computes. */
  function SubjectColumns(ds: seq<Definition>): Result<seq<SubjectColumn>> {
    Project(Active(ds, CARDINALITY_SINGLE), IdentityColumns())
  }

  function Prepend(columns: seq<SubjectColumn>, r: Result<seq<SubjectColumn>>): Result<seq<SubjectColumn>> {
    match r
    case Err(e) => Err(e)
    case Ok(rest) => Ok(columns + rest)
  }

  lemma PrependNothing(r: Result<seq<SubjectColumn>>)
    ensures Prepend([], r) == r
  {
    if r.Ok? { assert [] + r.value == r.value; }
  }

  lemma PrependTwice(columns: seq<SubjectColumn>, c: SubjectColumn, r: Result<seq<SubjectColumn>>)
    ensures Prepend(columns, Prepend([c], r)) == Prepend(columns + [c], r)
  {
    if r.Ok? { assert columns + ([c] + r.value) == (columns + [c]) + r.value; }
  }

  /** `subject_columns`: one pass over the active single definitions, growing `taken`. */
  method ComputeSubjectColumns(ds: seq<Definition>) returns (r: Result<seq<SubjectColumn>>)
    ensures r == SubjectColumns(ds)
  {
    var active := Active(ds, CARDINALITY_SINGLE);
    var taken := IdentityColumns();
    var columns: seq<SubjectColumn> := [];
    assert active[0..] == active;
    PrependNothing(Project(active, taken));
    for i := 0 to |active|
      invariant SubjectColumns(ds) == Prepend(columns, Project(active[i..], taken))
    {
      var definition := active[i];
      assert active[i..][1..] == active[i + 1..];
      if !IsGenerated(definition.identifier) {
        return Err(InvalidIdentifier(definition.identifier));
      }
      var name := UniqueColumnName(Stripped(definition), taken);
      taken := taken + {name};
      var column := SubjectColumn(definition, name, SubjectColumnType(definition.valueKind));
      PrependTwice(columns, column, Project(active[i + 1..], taken));
      columns := columns + [column];
    }
    assert columns + [] == columns;
    return Ok(columns);
  }

  predicate FitsColumn(ds: seq<Definition>) {
    forall d :: d in ds ==> |d.identifier| <= MAX_IDENTIFIER_LENGTH
  }

  lemma {:induction false} ProjectParts(ds: seq<Definition>, taken: set<string>)
    ensures Project(ds, taken).Ok? <==> forall d :: d in ds ==> IsGenerated(d.identifier)
    ensures Project(ds, taken).Ok? ==>
              var cs := Project(ds, taken).value;
              && |cs| == |ds|
              && (forall i :: 0 <= i < |cs| ==> cs[i].definition == ds[i])
              && (forall i :: 0 <= i < |cs| ==> cs[i].columnType == SubjectColumnType(ds[i].valueKind))
  {
    if ds != [] {
      assert ds == [ds[0]] + ds[1..];
      ProjectParts(ds[1..], taken + {UniqueColumn(Stripped(ds[0]), taken)});
    }
  }

  lemma {:induction false} ProjectFresh(ds: seq<Definition>, taken: set<string>)
    requires FitsColumn(ds) && Project(ds, taken).Ok?
    ensures var cs := Project(ds, taken).value;
            && (forall i :: 0 <= i < |cs| ==> cs[i].name !in taken)
            && (forall i, j :: 0 <= i < j < |cs| ==> cs[i].name != cs[j].name)
  {
    if ds != [] {
      assert ds[0] in ds;
      UniqueColumnFreeIff(Stripped(ds[0]), taken);
      ProjectFresh(ds[1..], taken + {UniqueColumn(Stripped(ds[0]), taken)});
    }
  }

  lemma ProjectShape(ds: seq<Definition>, taken: set<string>)
    requires FitsColumn(ds)
    ensures Project(ds, taken).Ok? <==> forall d :: d in ds ==> IsGenerated(d.identifier)
    ensures Project(ds, taken).Ok? ==>
              var cs := Project(ds, taken).value;
              && |cs| == |ds|
              && (forall i :: 0 <= i < |cs| ==> cs[i].definition == ds[i])
              && (forall i :: 0 <= i < |cs| ==> cs[i].columnType == SubjectColumnType(ds[i].valueKind))
              && (forall i :: 0 <= i < |cs| ==> cs[i].name !in taken)
              && (forall i, j :: 0 <= i < j < |cs| ==> cs[i].name != cs[j].name)
  {
    ProjectParts(ds, taken);
    if Project(ds, taken).Ok? { ProjectFresh(ds, taken); }
  }

  /** For every catalog whose identifiers fit their column: generation fails exactly when an active
      single definition has a malformed identifier; otherwise there is one column per active single
      definition, at its declared type, and the names are pairwise distinct and clear of the
      identity columns. */
  lemma SubjectColumnsDistinct(ds: seq<Definition>)
    requires FitsColumn(ds)
    ensures SubjectColumns(ds).Ok? <==>
            forall d :: d in ds && Owns(d, CARDINALITY_SINGLE) ==> IsGenerated(d.identifier)
    ensures SubjectColumns(ds).Ok? ==>
              var cs := SubjectColumns(ds).value;
              && (forall i, j :: 0 <= i < j < |cs| ==> cs[i].name != cs[j].name)
              && (forall c :: c in cs ==> c.name !in SUBJECT_IDENTITY_COLUMNS)
              && (forall c :: c in cs ==> c.columnType == SubjectColumnType(c.definition.valueKind))
              && (forall d :: d in ds && Owns(d, CARDINALITY_SINGLE) <==> exists c :: c in cs && c.definition == d)
  {
    ActiveMembers(ds, CARDINALITY_SINGLE);
    ProjectShape(Active(ds, CARDINALITY_SINGLE), IdentityColumns());
    if SubjectColumns(ds).Ok? {
      var cs := SubjectColumns(ds).value;
      forall d ensures d in ds && Owns(d, CARDINALITY_SINGLE) <==> exists c :: c in cs && c.definition == d {
        if d in Active(ds, CARDINALITY_SINGLE) {
          var k :| 0 <= k < |cs| && Active(ds, CARDINALITY_SINGLE)[k] == d;
          assert cs[k] in cs;
        }
      }
    }
  }

  /** The identifier without its prefix is an identity column of `subject`. */
  predicate HitsIdentity(d: Definition) {
    Stripped(d) in IdentityColumns()
  }

  lemma OtherStem(d: Definition, e: Definition)
    requires IsGenerated(d.identifier) && IsGenerated(e.identifier) && d.identifier != e.identifier
    ensures Stripped(d) != Stripped(e)
  {
    assert d.identifier == "e_" + Stripped(d) && e.identifier == "e_" + Stripped(e);
  }

  lemma {:induction false} ProjectStripped(ds: seq<Definition>, taken: set<string>)
    requires FitsColumn(ds)
    requires Project(ds, taken).Ok?
    requires forall i, j :: 0 <= i < j < |ds| ==> ds[i].identifier != ds[j].identifier
    requires forall d :: d in ds ==> Stripped(d) !in taken
    ensures |Project(ds, taken).value| == |ds|
    ensures forall i :: 0 <= i < |ds| ==> Project(ds, taken).value[i].name == Stripped(ds[i])
  {
    if ds != [] {
      var name := UniqueColumn(Stripped(ds[0]), taken);
      assert ds[0] in ds;
      assert name == Stripped(ds[0]);
      assert Project(ds[1..], taken + {name}).Ok?;
      forall i | 0 <= i < |ds[1..]| ensures Stripped(ds[1..][i]) !in taken + {name} {
        ProjectShape(ds, taken);
        assert ds[1..][i] == ds[i + 1] && ds[i + 1] in ds;
        OtherStem(ds[0], ds[i + 1]);
      }
      ProjectStripped(ds[1..], taken + {name});
    }
  }

  lemma StrictlyOrderedDistinct(ds: seq<Definition>)
    requires StrictlyOrdered(ds)
    ensures forall i, j :: 0 <= i < j < |ds| ==> ds[i].identifier != ds[j].identifier
  {
    forall i, j | 0 <= i < j < |ds| ensures ds[i].identifier != ds[j].identifier {
      BeforeIrreflexive(ds[i].identifier);
    }
  }

  /** Every column is its identifier without the prefix exactly when no active single definition
      strips to an identity column. Activating or deactivating other definitions then never moves
      a column, since the name depends on its own identifier alone. */
  lemma ColumnsStableIff(ds: seq<Definition>)
    requires FitsColumn(ds) && DistinctIdentifiers(ds) && SubjectColumns(ds).Ok?
    ensures (forall c :: c in SubjectColumns(ds).value ==> c.name == Stripped(c.definition)) <==>
            forall d :: d in ds && Owns(d, CARDINALITY_SINGLE) ==> !HitsIdentity(d)
  {
    ActiveMembers(ds, CARDINALITY_SINGLE);
    ActiveOrdered(ds, CARDINALITY_SINGLE);
    StrictlyOrderedDistinct(Active(ds, CARDINALITY_SINGLE));
    ProjectStableIff(Active(ds, CARDINALITY_SINGLE), IdentityColumns());
  }

  lemma ProjectStableIff(active: seq<Definition>, taken: set<string>)
    requires FitsColumn(active) && Project(active, taken).Ok?
    requires forall i, j :: 0 <= i < j < |active| ==> active[i].identifier != active[j].identifier
    ensures (forall c :: c in Project(active, taken).value ==> c.name == Stripped(c.definition)) <==>
            forall d :: d in active ==> Stripped(d) !in taken
  {
    var cs := Project(active, taken).value;
    ProjectShape(active, taken);
    if k :| 0 <= k < |active| && Stripped(active[k]) in taken {
      assert cs[k] in cs && active[k] in active;
    } else {
      ProjectStripped(active, taken);
      assert forall k :: 0 <= k < |cs| ==> cs[k].name == Stripped(cs[k].definition);
    }
  }

  const FILENAME := Definition("Filename", "e_filename", CARDINALITY_SINGLE, "text", true)
  const FILENAME_OFF := FILENAME.(isActive := false)
  const FILENAME_2 := Definition("Filename 2", "e_filename_2", CARDINALITY_SINGLE, "number", true)

  lemma FilenameColumnsOn()
    ensures SubjectColumns([FILENAME, FILENAME_2]) ==
            Ok([SubjectColumn(FILENAME, "filename_2", TextType),
                SubjectColumn(FILENAME_2, "filename_2_2", DoublePrecision)])
  {
    ActivePair(FILENAME, FILENAME_2, "_2", CARDINALITY_SINGLE);
    StrippedPair();
    FilenameColumns();
    ProjectTwo(FILENAME, FILENAME_2, IdentityColumns(), "filename_2", "filename_2_2");
  }

  lemma FilenameColumnsOff()
    ensures SubjectColumns([FILENAME_OFF, FILENAME_2]) == Ok([SubjectColumn(FILENAME_2, "filename_2", DoublePrecision)])
  {
    ActivePair(FILENAME_OFF, FILENAME_2, "_2", CARDINALITY_SINGLE);
    StrippedPair();
    FilenameColumns();
    ProjectOne(FILENAME_2, IdentityColumns());
  }

  /** Without that condition a column does move: deactivating `e_filename` hands its column
      `filename_2` to another definition, which keeps another type there. */
  lemma ColumnMovesOnIdentityHit()
    ensures SubjectColumns([FILENAME, FILENAME_2]) ==
            Ok([SubjectColumn(FILENAME, "filename_2", TextType),
                SubjectColumn(FILENAME_2, "filename_2_2", DoublePrecision)])
    ensures SubjectColumns([FILENAME_OFF, FILENAME_2]) == Ok([SubjectColumn(FILENAME_2, "filename_2", DoublePrecision)])
  {
    FilenameColumnsOn();
    FilenameColumnsOff();
  }

  lemma StrippedPair()
    ensures Stripped(FILENAME) == "filename" && IsGenerated(FILENAME.identifier)
    ensures Stripped(FILENAME_2) == "filename_2" && IsGenerated(FILENAME_2.identifier)
  {
    assert FILENAME.identifier[2..] == "filename" && FILENAME_2.identifier[2..] == "filename_2";
  }

  lemma ProjectTwo(d: Definition, e: Definition, taken: set<string>, n: string, m: string)
    requires IsGenerated(d.identifier) && IsGenerated(e.identifier)
    requires n == UniqueColumn(Stripped(d), taken) && m == UniqueColumn(Stripped(e), taken + {n})
    ensures Project([d, e], taken) ==
            Ok([SubjectColumn(d, n, SubjectColumnType(d.valueKind)), SubjectColumn(e, m, SubjectColumnType(e.valueKind))])
  {
    ProjectOne(e, taken + {n});
    assert [d, e][1..] == [e];
    var c, b := SubjectColumn(d, n, SubjectColumnType(d.valueKind)), SubjectColumn(e, m, SubjectColumnType(e.valueKind));
    assert [c] + [b] == [c, b];
  }

  lemma FilenameColumns()
    ensures UniqueColumn("filename", IdentityColumns()) == "filename_2"
    ensures UniqueColumn("filename_2", IdentityColumns()) == "filename_2"
    ensures UniqueColumn("filename_2", IdentityColumns() + {"filename_2"}) == "filename_2_2"
  {
    assert Digits(2) == "2";
    assert Suffix(2) == "_2";
    assert Suffixed("filename", 2) == "filename" + "_2" == "filename_2";
    assert Suffixed("filename_2", 2) == "filename_2" + "_2" == "filename_2_2";
    assert |"filename_2"| == 10 && |"filename_2_2"| == 12 && |"document_id"| == 11 && |"filename"| == 8;
  }

  lemma ActivePair(d: Definition, e: Definition, tail: string, cardinality: string)
    requires e.identifier == d.identifier + tail && tail != "" && Owns(e, cardinality)
    ensures Active([d, e], cardinality) == if Owns(d, cardinality) then [d, e] else [e]
  {
    BeforeExtension(d.identifier, tail);
    BeforeIrreflexive(d.identifier);
    assert !KeyBefore(e, d) by {
      if Before(e.identifier, d.identifier) { BeforeTransitive(d.identifier, e.identifier, d.identifier); }
    }
    assert [d, e][1..] == [e] && [e][1..] == [];
    assert Ordered([e]) == [e];
    assert Ordered([d, e]) == [d, e];
    assert Select([e], cardinality) == [e];
  }

  lemma ProjectOne(e: Definition, taken: set<string>)
    requires IsGenerated(e.identifier)
    ensures Project([e], taken) ==
            Ok([SubjectColumn(e, UniqueColumn(Stripped(e), taken), SubjectColumnType(e.valueKind))])
  {
    assert [e][1..] == [];
    var c := SubjectColumn(e, UniqueColumn(Stripped(e), taken), SubjectColumnType(e.valueKind));
    assert Project([e][1..], taken + {c.name}) == Ok([]);
    assert [c] + [] == [c];
  }

  lemma {:induction false} BeforeExtension(s: string, t: string)
    requires t != ""
    ensures Before(s, s + t)
  {
    if s != "" {
      assert (s + t)[1..] == s[1..] + t;
      BeforeExtension(s[1..], t);
    }
  }

  // ----- table names and the query surface -----

  function ChildTables(ds: seq<Definition>): set<string> {
    set d | d in Active(ds, CARDINALITY_MULTI) :: d.identifier
  }

  /** `expected_table_names`, which is also the query surface. */
  function ExpectedTables(ds: seq<Definition>): set<string> {
    {SUBJECT_TABLE_NAME} + ChildTables(ds)
  }

  /** `catalogued_table_names`. */
  function CataloguedTables(ds: seq<Definition>): set<string> {
    {SUBJECT_TABLE_NAME} + set d | d in ds && d.identifier != "" :: d.identifier
  }

  const CHILD_VALUE_COLUMNS: seq<string> :=
    ["document_id", "value", "normalized_value", "value_number", "value_number_high", "value_date",
     "value_date_high", "value_unit", "confidence", "page_number", "occurrence_count"]

  /** `build_query_surface(ds).columns_by_relation()`. */
  function ColumnsByRelation(ds: seq<Definition>): Result<map<string, set<string>>> {
    match SubjectColumns(ds)
    case Err(e) => Err(e)
    case Ok(cs) =>
      Ok(map[SUBJECT_TABLE_NAME := (set c | c in SUBJECT_IDENTITY_COLUMNS) + (set c | c in cs :: c.name)]
         + (map t | t in ChildTables(ds) :: set c | c in CHILD_VALUE_COLUMNS))
  }

  /** `_renderable`: the definitions that have an identifier at all. The rest own nothing. */
  lemma NamedKeepsActive(ds: seq<Definition>, cardinality: string)
    requires DistinctIdentifiers(ds)
    ensures Active(Named(ds), cardinality) == Active(ds, cardinality)
  {
    NamedMembers(ds);
    NamedDistinct(ds);
    ActiveOrdered(ds, cardinality); ActiveOrdered(Named(ds), cardinality);
    ActiveMembers(ds, cardinality); ActiveMembers(Named(ds), cardinality);
    StrictOrderUnique(Active(Named(ds), cardinality), Active(ds, cardinality));
  }

  lemma {:induction false} NamedDistinct(ds: seq<Definition>)
    requires DistinctIdentifiers(ds)
    ensures DistinctIdentifiers(Named(ds))
  {
    if ds != [] {
      assert forall i :: 0 <= i < |ds[1..]| ==> ds[1..][i] == ds[i + 1];
      NamedDistinct(ds[1..]);
      NamedMembers(ds[1..]);
      var rest := Named(ds[1..]);
      forall i | 0 <= i < |rest| ensures rest[i].identifier == ds[0].identifier ==> ds[0].identifier == "" {
        assert rest[i] in ds[1..];
        var k :| 0 <= k < |ds[1..]| && ds[1..][k] == rest[i];
      }
      if ds[0].identifier != "" { assert Named(ds) == [ds[0]] + rest; }
    }
  }
}
