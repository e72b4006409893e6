/** Migration 037: every existing entity definition gets an identifier. */
module Backfill {
  import opened Identifiers
  import opened Wrappers

  datatype CatalogRow = CatalogRow(id: nat, tenant: string, name: string, identifier: Option<string>)

  function TakenFor(taken: map<string, set<string>>, tenant: string): set<string> {
    if tenant in taken then taken[tenant] else {}
  }

  function Adding(taken: map<string, set<string>>, tenant: string, identifier: string): map<string, set<string>> {
    taken[tenant := TakenFor(taken, tenant) + {identifier}]
  }

  /** The identifiers already assigned, by tenant. */
  function Assigned(rows: seq<CatalogRow>): map<string, set<string>> {
    if rows == [] then map[]
    else
      var last, before := rows[|rows| - 1], Assigned(rows[..|rows| - 1]);
      if last.identifier.Some? then Adding(before, last.tenant, last.identifier.value) else before
  }

  /** The row once it has its identifier. */
  function Named(row: CatalogRow, taken: map<string, set<string>>): CatalogRow {
    if row.identifier.Some? then row
    else row.(identifier := Some(SqlIdentifier(row.name, TakenFor(taken, row.tenant))))
  }

  /** What its tenant has taken once the row is done. */
  function Passed(row: CatalogRow, taken: map<string, set<string>>): map<string, set<string>> {
    if row.identifier.Some? then taken
    else Adding(taken, row.tenant, SqlIdentifier(row.name, TakenFor(taken, row.tenant)))
  }

  /** One pass over the rows: each unassigned row takes the next free identifier of its tenant. */
  function Assign(rows: seq<CatalogRow>, taken: map<string, set<string>>): seq<CatalogRow> {
    if rows == [] then [] else [Named(rows[0], taken)] + Assign(rows[1..], Passed(rows[0], taken))
  }

  function Backfilled(rows: seq<CatalogRow>): seq<CatalogRow> {
    Assign(rows, Assigned(rows))
  }

  /** `public.entity_definitions`, its rows listed in the order the backfill reads them: by tenant,
      creation time and id, none of which it changes. */
  class EntityDefinitions {
    var rows: seq<CatalogRow>

    constructor (rows: seq<CatalogRow>)
      ensures this.rows == rows
    {
      this.rows := rows;
    }

    /** The first query: what each tenant already uses. */
    method CollectTaken() returns (takenByTenant: map<string, set<string>>)
      ensures takenByTenant == Assigned(rows)
    {
      takenByTenant := map[];
      for i := 0 to |rows|
        invariant takenByTenant == Assigned(rows[..i])
      {
        assert rows[..i + 1][..i] == rows[..i];
        if rows[i].identifier.Some? {
          takenByTenant := Adding(takenByTenant, rows[i].tenant, rows[i].identifier.value);
        }
      }
      assert rows[..|rows|] == rows;
    }

    /** `_backfill_sql_identifiers`. */
    method BackfillSqlIdentifiers()
      modifies this
      ensures rows == Backfilled(old(rows))
    {
      var takenByTenant := CollectTaken();
      ghost var before, done := rows, [];
      PassBegins(before);
      for i := 0 to |rows|
        invariant |rows| == |before| && Underway(before, rows, done, i, takenByTenant)
      {
        takenByTenant, done := BackfillRow(i, takenByTenant, before, done);
      }
      PassEnds(before, rows, done, takenByTenant);
    }

    /** One turn of the loop: a row without an identifier gets one. */
    method BackfillRow(i: nat, taken: map<string, set<string>>, ghost before: seq<CatalogRow>, ghost done: seq<CatalogRow>)
      returns (taken': map<string, set<string>>, ghost done': seq<CatalogRow>)
      requires i < |rows| == |before| && Underway(before, rows, done, i, taken)
      modifies this
      ensures rows == old(rows)[i := Named(old(rows)[i], taken)]
      ensures taken' == Passed(old(rows)[i], taken)
      ensures Underway(before, rows, done', i + 1, taken')
    {
      var row := rows[i];
      PassGoesOn(before, rows, done, i, taken);
      done' := done + [Named(row, taken)];
      taken' := taken;
      if row.identifier.None? {
        var identifier := ToSqlIdentifier(row.name, TakenFor(taken, row.tenant));
        rows := rows[i := row.(identifier := Some(identifier))];
        taken' := Adding(taken, row.tenant, identifier);
      }
    }
  }

  /** Where the pass stands: the rows done, and the rest as it was. */
  predicate Underway(before: seq<CatalogRow>, rows: seq<CatalogRow>, done: seq<CatalogRow>, i: nat, taken: map<string, set<string>>)
    requires i <= |before|
  {
    |done| == i && rows == done + before[i..] && Backfilled(before) == done + Assign(before[i..], taken)
  }

  lemma PassBegins(before: seq<CatalogRow>)
    ensures Underway(before, before, [], 0, Assigned(before))
  {
    assert before[0..] == before;
  }

  lemma PassGoesOn(before: seq<CatalogRow>, rows: seq<CatalogRow>, done: seq<CatalogRow>, i: nat, taken: map<string, set<string>>)
    requires i < |before| && Underway(before, rows, done, i, taken)
    ensures |rows| == |before| && rows[i] == before[i]
    ensures Underway(before, rows[i := Named(rows[i], taken)], done + [Named(rows[i], taken)], i + 1, Passed(rows[i], taken))
  {
    var row, rest := before[i], before[i + 1..];
    assert rows[i] == row && before[i..][1..] == rest;
    assert rows[i := Named(row, taken)] == (done + [Named(row, taken)]) + rest;
    assert done + ([Named(row, taken)] + Assign(rest, Passed(row, taken))) == (done + [Named(row, taken)]) + Assign(rest, Passed(row, taken));
  }

  lemma PassEnds(before: seq<CatalogRow>, rows: seq<CatalogRow>, done: seq<CatalogRow>, taken: map<string, set<string>>)
    requires Underway(before, rows, done, |before|, taken)
    ensures rows == Backfilled(before)
  {
  }

  // ----- laws -----

  predicate Distinct(rows: seq<CatalogRow>) {
    forall i, j :: 0 <= i < j < |rows| && rows[i].tenant == rows[j].tenant && rows[i].identifier.Some?
      ==> rows[i].identifier != rows[j].identifier
  }

  lemma {:induction false} AssignedMembers(rows: seq<CatalogRow>, tenant: string)
    ensures forall s :: s in TakenFor(Assigned(rows), tenant) <==>
              exists i :: 0 <= i < |rows| && rows[i].tenant == tenant && rows[i].identifier == Some(s)
  {
    if rows != [] {
      var before := rows[..|rows| - 1];
      AssignedMembers(before, tenant);
      forall s ensures s in TakenFor(Assigned(rows), tenant) <==>
          exists i :: 0 <= i < |rows| && rows[i].tenant == tenant && rows[i].identifier == Some(s)
      {
        if i :| 0 <= i < |rows| && rows[i].tenant == tenant && rows[i].identifier == Some(s) {
          if i < |rows| - 1 { assert before[i] == rows[i]; }
        }
      }
    }
  }

  /** Where the pass stands: `taken` holds every identifier assigned in the rows still to come. */
  predicate Covers(taken: map<string, set<string>>, rows: seq<CatalogRow>) {
    forall i :: 0 <= i < |rows| && rows[i].identifier.Some? ==> rows[i].identifier.value in TakenFor(taken, rows[i].tenant)
  }

  lemma {:induction false} AssignEffect(rows: seq<CatalogRow>, taken: map<string, set<string>>)
    requires Covers(taken, rows)
    ensures var after := Assign(rows, taken);
            && |after| == |rows|
            && (forall i :: 0 <= i < |rows| ==> after[i].identifier.Some?)
            && (forall i :: 0 <= i < |rows| && rows[i].identifier.Some? ==> after[i] == rows[i])
            && (forall i :: 0 <= i < |rows| ==> after[i] == rows[i].(identifier := after[i].identifier))
            && (forall i :: 0 <= i < |rows| && rows[i].identifier.None? ==>
                  after[i].identifier.value !in TakenFor(taken, rows[i].tenant))
    decreases |rows|
  {
    if rows != [] {
      var taken' := Passed(rows[0], taken);
      assert Covers(taken', rows[1..]) by {
        forall i | 0 <= i < |rows[1..]| && rows[1..][i].identifier.Some?
          ensures rows[1..][i].identifier.value in TakenFor(taken', rows[1..][i].tenant)
        {
          assert rows[1..][i] == rows[i + 1];
        }
      }
      AssignEffect(rows[1..], taken');
      SqlIdentifierLeastFree(rows[0].name, TakenFor(taken, rows[0].tenant));
      var after := Assign(rows, taken);
      assert after[1..] == Assign(rows[1..], taken');
      forall i | 1 <= i < |rows|
        ensures after[i].identifier.Some?
        ensures rows[i].identifier.Some? ==> after[i] == rows[i]
        ensures after[i] == rows[i].(identifier := after[i].identifier)
        ensures rows[i].identifier.None? ==> after[i].identifier.value !in TakenFor(taken, rows[i].tenant)
      {
        assert after[i] == after[1..][i - 1] && rows[i] == rows[1..][i - 1];
      }
    }
  }

  /** Two rows of a tenant end up with the same identifier only if they both had it before. */
  lemma CoversRest(taken: map<string, set<string>>, rows: seq<CatalogRow>)
    requires Covers(taken, rows) && rows != []
    ensures Covers(Passed(rows[0], taken), rows[1..])
  {
    var taken', rest := Passed(rows[0], taken), rows[1..];
    forall k | 0 <= k < |rest| && rest[k].identifier.Some? ensures rest[k].identifier.value in TakenFor(taken', rest[k].tenant) {
      assert rest[k] == rows[k + 1];
    }
  }

  lemma AssignRest(rows: seq<CatalogRow>, taken: map<string, set<string>>, k: nat)
    requires 0 < k < |rows| == |Assign(rows, taken)|
    ensures var rest := Assign(rows[1..], Passed(rows[0], taken));
            |rest| == |rows| - 1 && Assign(rows, taken)[k] == rest[k - 1] && rows[1..][k - 1] == rows[k]
  {
    assert Assign(rows, taken)[1..] == Assign(rows[1..], Passed(rows[0], taken));
  }

  lemma {:induction false} AssignCollides(rows: seq<CatalogRow>, taken: map<string, set<string>>, i: nat, j: nat)
    requires Covers(taken, rows) && i < j < |rows| && rows[i].tenant == rows[j].tenant
    requires |Assign(rows, taken)| == |rows| && Assign(rows, taken)[i].identifier == Assign(rows, taken)[j].identifier
    ensures rows[i].identifier == rows[j].identifier && rows[i].identifier.Some?
    decreases |rows|
  {
    var taken', rest := Passed(rows[0], taken), rows[1..];
    CoversRest(taken, rows);
    AssignRest(rows, taken, j);
    if i > 0 {
      AssignRest(rows, taken, i);
      AssignCollides(rest, taken', i - 1, j - 1);
    } else {
      AssignEffect(rows, taken);
      AssignEffect(rest, taken');
    }
  }

  lemma AssignedCovers(rows: seq<CatalogRow>)
    ensures Covers(Assigned(rows), rows)
  {
    forall i | 0 <= i < |rows| && rows[i].identifier.Some?
      ensures rows[i].identifier.value in TakenFor(Assigned(rows), rows[i].tenant)
    {
      AssignedMembers(rows, rows[i].tenant);
    }
  }

  /** Every row is assigned afterwards, nothing else about a row changes, an identifier already
      assigned is never changed, and identifiers are pairwise distinct within each tenant exactly
      if the ones already assigned were. */
  lemma BackfillAssigns(rows: seq<CatalogRow>)
    ensures var after := Backfilled(rows);
            && |after| == |rows|
            && (forall i :: 0 <= i < |rows| ==> after[i].identifier.Some?)
            && (forall i :: 0 <= i < |rows| && rows[i].identifier.Some? ==> after[i] == rows[i])
            && (forall i :: 0 <= i < |rows| ==> after[i] == rows[i].(identifier := after[i].identifier))
            && (Distinct(after) <==> Distinct(rows))
  {
    AssignedCovers(rows);
    AssignEffect(rows, Assigned(rows));
    var after := Backfilled(rows);
    if Distinct(rows) {
      forall i, j | 0 <= i < j < |after| && after[i].tenant == after[j].tenant ensures after[i].identifier != after[j].identifier {
        if after[i].identifier == after[j].identifier { AssignCollides(rows, Assigned(rows), i, j); }
      }
    } else {
      var i, j :| 0 <= i < j < |rows| && rows[i].tenant == rows[j].tenant && rows[i].identifier.Some?
        && rows[i].identifier == rows[j].identifier;
      assert after[i] == rows[i] && after[j] == rows[j];
    }
  }

  lemma {:induction false} AssignNothing(rows: seq<CatalogRow>, taken: map<string, set<string>>)
    requires forall i :: 0 <= i < |rows| ==> rows[i].identifier.Some?
    ensures Assign(rows, taken) == rows
  {
    if rows != [] { AssignNothing(rows[1..], taken); }
  }

  /** Running the backfill again is a no-op. */
  lemma BackfillIdempotent(rows: seq<CatalogRow>)
    ensures Backfilled(Backfilled(rows)) == Backfilled(rows)
  {
    BackfillAssigns(rows);
    AssignNothing(Backfilled(rows), Assigned(Backfilled(rows)));
  }

  function OfTenant(rows: seq<CatalogRow>, tenant: string): seq<CatalogRow> {
    if rows == [] then []
    else (if rows[0].tenant == tenant then [rows[0]] else []) + OfTenant(rows[1..], tenant)
  }

  lemma {:induction false} AssignLocal(
    rows: seq<CatalogRow>, tenant: string, taken: map<string, set<string>>, alone: map<string, set<string>>)
    requires TakenFor(taken, tenant) == TakenFor(alone, tenant)
    ensures OfTenant(Assign(rows, taken), tenant) == Assign(OfTenant(rows, tenant), alone)
    decreases |rows|
  {
    if rows != [] {
      var taken' := Passed(rows[0], taken);
      var after := Assign(rows, taken);
      assert after[1..] == Assign(rows[1..], taken');
      if rows[0].tenant == tenant {
        AssignLocal(rows[1..], tenant, taken', Passed(rows[0], alone));
        assert OfTenant(rows, tenant)[1..] == OfTenant(rows[1..], tenant);
      } else {
        AssignLocal(rows[1..], tenant, taken', alone);
        assert OfTenant(rows, tenant) == OfTenant(rows[1..], tenant);
        assert OfTenant(after, tenant) == OfTenant(after[1..], tenant);
      }
    }
  }

  lemma {:induction false} OfTenantMembers(rows: seq<CatalogRow>, tenant: string)
    ensures forall r :: r in OfTenant(rows, tenant) <==> r in rows && r.tenant == tenant
  {
    if rows != [] {
      OfTenantMembers(rows[1..], tenant);
      assert rows == [rows[0]] + rows[1..];
    }
  }

  /** Each tenant gets exactly what a run over that tenant alone would give. */
  lemma BackfillLocal(rows: seq<CatalogRow>, tenant: string)
    ensures OfTenant(Backfilled(rows), tenant) == Backfilled(OfTenant(rows, tenant))
  {
    var own := OfTenant(rows, tenant);
    AssignedMembers(rows, tenant);
    AssignedMembers(own, tenant);
    OfTenantMembers(rows, tenant);
    forall s ensures s in TakenFor(Assigned(rows), tenant) <==> s in TakenFor(Assigned(own), tenant) {
      if i :| 0 <= i < |rows| && rows[i].tenant == tenant && rows[i].identifier == Some(s) {
        assert rows[i] in own;
        var k :| 0 <= k < |own| && own[k] == rows[i];
      }
      if i :| 0 <= i < |own| && own[i].tenant == tenant && own[i].identifier == Some(s) {
        assert own[i] in rows;
      }
    }
    assert TakenFor(Assigned(rows), tenant) == TakenFor(Assigned(own), tenant);
    AssignLocal(rows, tenant, Assigned(rows), Assigned(own));
  }

  lemma {:induction false} TakenSmall(rows: seq<CatalogRow>, tenant: string)
    ensures |TakenFor(Assigned(rows), tenant)| <= |rows|
  {
    if rows != [] { TakenSmall(rows[..|rows| - 1], tenant); }
  }

  lemma {:induction false} AssignLegal(rows: seq<CatalogRow>, taken: map<string, set<string>>)
    requires forall tenant :: |TakenFor(taken, tenant)| + |rows| + 2 < Pow10(59)
    ensures |Assign(rows, taken)| == |rows|
    ensures forall i :: 0 <= i < |rows| && rows[i].identifier.None? ==>
              Assign(rows, taken)[i].identifier.Some? && IsIdentifier(Assign(rows, taken)[i].identifier.value)
    decreases |rows|
  {
    if rows != [] {
      var taken' := Passed(rows[0], taken);
      assert |TakenFor(taken, rows[0].tenant)| + |rows| + 2 < Pow10(59);
      SqlIdentifierLegal(rows[0].name, TakenFor(taken, rows[0].tenant));
      forall tenant ensures |TakenFor(taken', tenant)| + |rows[1..]| + 2 < Pow10(59) {
        assert |TakenFor(taken', tenant)| <= |TakenFor(taken, tenant)| + 1;
      }
      AssignLegal(rows[1..], taken');
      assert Assign(rows, taken)[1..] == Assign(rows[1..], taken');
      forall i | 1 <= i < |rows| && rows[i].identifier.None?
        ensures Assign(rows, taken)[i].identifier.Some? && IsIdentifier(Assign(rows, taken)[i].identifier.value)
      {
        assert rows[i] == rows[1..][i - 1];
        assert Assign(rows, taken)[i] == Assign(rows, taken)[1..][i - 1];
      }
    }
  }

  /** Every identifier the backfill hands out is legal: bounded and within the grammar. */
  lemma BackfillLegal(rows: seq<CatalogRow>)
    requires 2 * |rows| + 2 < Pow10(59)
    ensures |Backfilled(rows)| == |rows|
    ensures forall i :: 0 <= i < |rows| && rows[i].identifier.None? ==>
              Backfilled(rows)[i].identifier.Some? && IsIdentifier(Backfilled(rows)[i].identifier.value)
  {
    forall tenant ensures |TakenFor(Assigned(rows), tenant)| + |rows| + 2 < Pow10(59) { TakenSmall(rows, tenant); }
    AssignLegal(rows, Assigned(rows));
  }

  // ----- each row by its own name -----

  /** What is taken when the pass comes to row `i`. */
  function TakenAt(rows: seq<CatalogRow>, taken: map<string, set<string>>, i: nat): map<string, set<string>>
    requires i <= |rows|
    decreases i
  {
    if i == 0 then taken else TakenAt(rows[1..], Passed(rows[0], taken), i - 1)
  }

  lemma {:induction false} AssignAt(rows: seq<CatalogRow>, taken: map<string, set<string>>, i: nat)
    requires i < |rows|
    ensures |Assign(rows, taken)| == |rows| && Assign(rows, taken)[i] == Named(rows[i], TakenAt(rows, taken, i))
    decreases i
  {
    AssignLength(rows, taken);
    if i > 0 {
      AssignRest(rows, taken, i);
      AssignAt(rows[1..], Passed(rows[0], taken), i - 1);
    }
  }

  lemma {:induction false} AssignLength(rows: seq<CatalogRow>, taken: map<string, set<string>>)
    ensures |Assign(rows, taken)| == |rows|
    decreases |rows|
  {
    if rows != [] { AssignLength(rows[1..], Passed(rows[0], taken)); }
  }

  /** Row `j` comes before row `i` and is given `s` by the pass. */
  predicate GivenBefore(rows: seq<CatalogRow>, after: seq<CatalogRow>, i: nat, tenant: string, s: string, j: nat) {
    j < i && j < |rows| && j < |after| && rows[j].tenant == tenant && rows[j].identifier.None? && after[j].identifier == Some(s)
  }

  lemma {:induction false} TakenAtSnoc(rows: seq<CatalogRow>, taken: map<string, set<string>>, i: nat)
    requires i < |rows|
    ensures TakenAt(rows, taken, i + 1) == Passed(rows[i], TakenAt(rows, taken, i))
    decreases i
  {
    if i > 0 { TakenAtSnoc(rows[1..], Passed(rows[0], taken), i - 1); }
  }

  lemma PassedMember(row: CatalogRow, taken: map<string, set<string>>, tenant: string, s: string)
    ensures s in TakenFor(Passed(row, taken), tenant) <==>
            s in TakenFor(taken, tenant) || (row.tenant == tenant && row.identifier.None? && Named(row, taken).identifier == Some(s))
  {
  }

  lemma {:induction false} TakenAtMembers(
    rows: seq<CatalogRow>, after: seq<CatalogRow>, taken: map<string, set<string>>, i: nat, tenant: string, s: string)
    requires i <= |rows| == |after| && forall j :: 0 <= j < |rows| ==> after[j] == Named(rows[j], TakenAt(rows, taken, j))
    ensures s in TakenFor(TakenAt(rows, taken, i), tenant) <==>
            s in TakenFor(taken, tenant) || exists j: nat :: GivenBefore(rows, after, i, tenant, s, j)
    decreases i
  {
    if i > 0 {
      var last := i - 1;
      TakenAtMembers(rows, after, taken, last, tenant, s);
      TakenAtSnoc(rows, taken, last);
      PassedMember(rows[last], TakenAt(rows, taken, last), tenant, s);
      OneMoreGiven(rows, after, last, i, tenant, s);
      assert after[last] == Named(rows[last], TakenAt(rows, taken, last));
    }
  }

  lemma AssignedOneByOne(rows: seq<CatalogRow>, taken: map<string, set<string>>)
    ensures |Assign(rows, taken)| == |rows|
    ensures forall j :: 0 <= j < |rows| ==> Assign(rows, taken)[j] == Named(rows[j], TakenAt(rows, taken, j))
  {
    AssignLength(rows, taken);
    forall j | 0 <= j < |rows| ensures Assign(rows, taken)[j] == Named(rows[j], TakenAt(rows, taken, j)) { AssignAt(rows, taken, j); }
  }

  lemma OneMoreGiven(rows: seq<CatalogRow>, after: seq<CatalogRow>, last: nat, i: nat, tenant: string, s: string)
    requires i == last + 1
    ensures (exists j: nat :: GivenBefore(rows, after, i, tenant, s, j)) <==>
            GivenBefore(rows, after, i, tenant, s, last) || exists j: nat :: GivenBefore(rows, after, last, tenant, s, j)
  {
    if j: nat :| GivenBefore(rows, after, i, tenant, s, j) {
      assert j == last || GivenBefore(rows, after, last, tenant, s, j);
    }
    if j: nat :| GivenBefore(rows, after, last, tenant, s, j) {
      assert GivenBefore(rows, after, i, tenant, s, j);
    }
  }

  /** Row `j` has this identifier in use when the pass comes to row `i`: it is assigned from the start, wherever
      it stands, or stands before. */
  predicate Uses(rows: seq<CatalogRow>, after: seq<CatalogRow>, i: nat, j: nat)
    requires i < |rows| == |after|
  {
    && j < |rows| && rows[j].tenant == rows[i].tenant && after[j].identifier.Some?
    && (rows[j].identifier.Some? || j < i)
  }

  /** The identifiers the row's tenant uses by then. */
  function InUse(rows: seq<CatalogRow>, after: seq<CatalogRow>, i: nat): set<string>
    requires i < |rows| == |after|
  {
    set j | 0 <= j < |rows| && Uses(rows, after, i, j) :: after[j].identifier.value
  }

  lemma AssignedMember(rows: seq<CatalogRow>, tenant: string, s: string)
    ensures s in TakenFor(Assigned(rows), tenant) <==>
            exists j :: 0 <= j < |rows| && rows[j].tenant == tenant && rows[j].identifier == Some(s)
  {
    AssignedMembers(rows, tenant);
  }

  lemma UsedIsTaken(rows: seq<CatalogRow>, after: seq<CatalogRow>, i: nat, j: nat)
    requires after == Assign(rows, Assigned(rows)) && i < |rows| == |after| && Uses(rows, after, i, j)
    requires rows[j].identifier.Some? ==> after[j] == rows[j]
    ensures after[j].identifier.value in TakenFor(TakenAt(rows, Assigned(rows), i), rows[i].tenant)
  {
    var s, tenant := after[j].identifier.value, rows[i].tenant;
    AssignedMember(rows, tenant, s);
    AssignedOneByOne(rows, Assigned(rows));
    TakenAtMembers(rows, after, Assigned(rows), i, tenant, s);
    if rows[j].identifier.None? { assert GivenBefore(rows, after, i, tenant, s, j); }
  }

  lemma TakenIsUsed(rows: seq<CatalogRow>, after: seq<CatalogRow>, i: nat, s: string) returns (j: nat)
    requires after == Assign(rows, Assigned(rows)) && i < |rows| == |after|
    requires forall k :: 0 <= k < |rows| && rows[k].identifier.Some? ==> after[k] == rows[k]
    requires s in TakenFor(TakenAt(rows, Assigned(rows), i), rows[i].tenant)
    ensures Uses(rows, after, i, j) && after[j].identifier.value == s
  {
    var tenant := rows[i].tenant;
    AssignedMember(rows, tenant, s);
    AssignedOneByOne(rows, Assigned(rows));
    TakenAtMembers(rows, after, Assigned(rows), i, tenant, s);
    if s in TakenFor(Assigned(rows), tenant) {
      j :| 0 <= j < |rows| && rows[j].tenant == tenant && rows[j].identifier == Some(s);
    } else {
      j :| GivenBefore(rows, after, i, tenant, s, j);
    }
  }

  lemma InUseIsTaken(rows: seq<CatalogRow>, after: seq<CatalogRow>, i: nat)
    requires after == Assign(rows, Assigned(rows)) && i < |rows| == |after|
    requires forall k :: 0 <= k < |rows| && rows[k].identifier.Some? ==> after[k] == rows[k]
    ensures InUse(rows, after, i) == TakenFor(TakenAt(rows, Assigned(rows), i), rows[i].tenant)
  {
    var taken := TakenFor(TakenAt(rows, Assigned(rows), i), rows[i].tenant);
    forall s | s in InUse(rows, after, i) ensures s in taken {
      var j :| 0 <= j < |rows| && Uses(rows, after, i, j) && after[j].identifier.value == s;
      UsedIsTaken(rows, after, i, j);
    }
    forall s | s in taken ensures s in InUse(rows, after, i) {
      var j := TakenIsUsed(rows, after, i, s);
    }
  }

  /** Every identifier handed out is the one the row's own name gets among those its tenant uses by then. */
  lemma BackfillFromOwnName(rows: seq<CatalogRow>, i: nat)
    requires i < |rows| && rows[i].identifier.None?
    ensures |Backfilled(rows)| == |rows|
    ensures Backfilled(rows)[i].identifier == Some(SqlIdentifier(rows[i].name, InUse(rows, Backfilled(rows), i)))
  {
    BackfillAssigns(rows);
    AssignAt(rows, Assigned(rows), i);
    InUseIsTaken(rows, Backfilled(rows), i);
  }
}
