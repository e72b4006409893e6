/** How much reviewed material has gathered since the serving model version was trained: the report that
    folds grouped rows, and the runs of review, training and consumption that move its figure. */
module Accumulation {

  import opened Wrappers
  import opened Identifiers

  datatype Span = Span(document: string, entityType: string)
  datatype Review = Review(modelVersion: string, byBase: bool)
  datatype Consumption = Consumption(version: int, job: string)
  datatype ModelVersion = ModelVersion(number: Option<int>, version: Option<int>, status: string)

  /** One tenant's tables. The three tables beside `spans` are keyed by span; `promoted` holds the keys
      of the batch provenance, `withText` the documents that have text. A schema cloned from the template
      has no foreign keys; a tenant-owned store, and a schema older than these tables, refer to `spans` with
      ON DELETE CASCADE. */
  datatype Tables = Tables(
    hasForeignKeys: bool,
    spans: map<nat, Span>,
    reviews: map<nat, Review>,
    promoted: set<nat>,
    consumed: map<nat, Consumption>,
    withText: set<string>,
    versions: seq<ModelVersion>,
    jobs: map<string, string>,
    nextSpan: nat)

  // ----- the serving version -----

  function Str(n: int): string {
    if n < 0 then "-" + Digits(-n) else Digits(n)
  }

  function Coalesced(m: ModelVersion): Option<int> {
    if m.number.Some? then m.number else m.version
  }

  /** Descending order with NULL first: whether `a` comes no later than `b`. */
  predicate NoLater(a: Option<int>, b: Option<int>) {
    a.None? || (b.Some? && a.value >= b.value)
  }

  /** The first promoted row in that order. */
  function Latest(vs: seq<ModelVersion>): Option<Option<int>> {
    if vs == [] then None
    else
      var rest := Latest(vs[1..]);
      if vs[0].status != "promoted" then rest
      else if rest.Some? && !NoLater(Coalesced(vs[0]), rest.value) then rest
      else Some(Coalesced(vs[0]))
  }

  function CurrentModelVersion(vs: seq<ModelVersion>): string {
    match Latest(vs)
    case Some(Some(n)) => Str(n)
    case _ => "0"
  }

  predicate IsSpace(c: char) {
    || '\t' <= c <= '\r' || '\U{1c}' <= c <= ' ' || c == '\U{85}' || c == '\U{a0}' || c == '\U{1680}'
    || '\U{2000}' <= c <= '\U{200a}' || c in {'\U{2028}', '\U{2029}', '\U{202f}', '\U{205f}', '\U{3000}'}
  }

  function Stripped(s: string): string {
    if s != "" && IsSpace(s[0]) then Stripped(s[1..])
    else if s != "" && IsSpace(s[|s| - 1]) then Stripped(s[..|s| - 1])
    else s
  }

  predicate IsBaseModelVersion(v: Option<string>) {
    v.None? || Stripped(v.value) in ["", "0"]
  }

  lemma {:induction false} LatestIsFirst(vs: seq<ModelVersion>)
    ensures Latest(vs).None? <==> forall m :: m in vs ==> m.status != "promoted"
    ensures Latest(vs).Some? ==>
              && (exists m :: m in vs && m.status == "promoted" && Coalesced(m) == Latest(vs).value)
              && (forall m :: m in vs && m.status == "promoted" ==> NoLater(Latest(vs).value, Coalesced(m)))
  {
    if vs != [] {
      LatestIsFirst(vs[1..]);
      assert vs == [vs[0]] + vs[1..];
      assert vs[0] in vs;
    }
  }

  /** A number in decimal has no blanks to strip, and is `0` only for 0. */
  lemma StrIs(n: int)
    ensures Stripped(Str(n)) == Str(n) && (Str(n) in ["", "0"] <==> n == 0)
  {
    var s := Str(n);
    DigitsRead(if n < 0 then -n else n);
    assert !IsSpace(s[0]) && !IsSpace(s[|s| - 1]);
    if n < 0 { assert s[0] == '-'; }
  }

  /** The base model serves exactly when nothing is promoted, or a promoted row carries neither number
      (a NULL sorts before every number), or the greatest promoted number is 0. */
  lemma BaseModelServesIff(vs: seq<ModelVersion>)
    ensures IsBaseModelVersion(Some(CurrentModelVersion(vs))) <==>
              || (forall m :: m in vs ==> m.status != "promoted")
              || (exists m :: m in vs && m.status == "promoted" && Coalesced(m).None?)
              || ((exists m :: m in vs && m.status == "promoted" && Coalesced(m) == Some(0)) &&
                  forall m :: m in vs && m.status == "promoted" ==> Coalesced(m).Some? && Coalesced(m).value <= 0)
  {
    LatestIsFirst(vs);
    if Latest(vs).Some? && Latest(vs).value.Some? {
      StrIs(Latest(vs).value.value);
    } else {
      assert Stripped("0") == "0";
    }
  }

  /** The number of a version row: `version_number`, or `version` where that is missing. */
  predicate Numbered(m: ModelVersion, n: int) {
    m.number == Some(n) || (m.number.None? && m.version == Some(n))
  }

  /** The greatest number of a promoted row, when every one has a number. */
  ghost predicate IsGreatest(vs: seq<ModelVersion>, n: int) {
    && (exists m :: m in vs && m.status == "promoted" && Numbered(m, n))
    && forall m :: m in vs && m.status == "promoted" ==> exists k: int :: Numbered(m, k) && k <= n
  }

  lemma NumberedIs(m: ModelVersion, n: int)
    ensures Numbered(m, n) <==> Coalesced(m) == Some(n)
  {
  }

  lemma LatestIs(vs: seq<ModelVersion>, n: int)
    requires IsGreatest(vs, n)
    ensures Latest(vs) == Some(Some(n))
  {
    LatestIsFirst(vs);
    var m :| m in vs && m.status == "promoted" && Numbered(m, n);
    var latest :| latest in vs && latest.status == "promoted" && Coalesced(latest) == Latest(vs).value;
    var k: int :| Numbered(latest, k) && k <= n;
    NumberedIs(m, n);
    NumberedIs(latest, k);
    assert NoLater(Latest(vs).value, Coalesced(m));
  }

  /** The serving version is the greatest promoted number, in decimal. */
  lemma ServingVersionIs(vs: seq<ModelVersion>, n: int)
    requires IsGreatest(vs, n)
    ensures CurrentModelVersion(vs) == if n < 0 then "-" + Digits(-n) else Digits(n)
  {
    LatestIs(vs, n);
  }

  // ----- the grouped query -----

  datatype Key = Key(version: string, byBase: bool, entityType: string, fromBatch: bool)
  datatype GroupRow = GroupRow(key: Key, count: nat)

  /** Reviewed spans no completed training has recorded. */
  function Candidates(t: Tables): set<nat> {
    set id | id in t.reviews && id in t.spans && id !in t.consumed
  }

  function KeyOf(t: Tables, id: nat): Key
    requires id in t.reviews && id in t.spans
  {
    Key(t.reviews[id].modelVersion, t.reviews[id].byBase, t.spans[id].entityType, id in t.promoted)
  }

  /** Which spans are asked about: those of one key, of a tenant version, of a type or a source within
      that version, or those a base model predicted. */
  datatype Query = OfKey(key: Key) | OfVersion(v: string) | OfType(v: string, entityType: string)
                 | OfSource(v: string, fromBatch: bool) | OfBase

  predicate Wants(q: Query, k: Key) {
    match q
    case OfKey(key) => k == key
    case OfVersion(v) => !k.byBase && k.version == v
    case OfType(v, e) => !k.byBase && k.version == v && k.entityType == e
    case OfSource(v, b) => !k.byBase && k.version == v && k.fromBatch == b
    case OfBase => k.byBase
  }

  function Matching(t: Tables, q: Query): set<nat> {
    set id | id in Candidates(t) && Wants(q, KeyOf(t, id))
  }

  /** The spans the figure is about: reviewed, not consumed, predicted by tenant version `v`. */
  function Counted(t: Tables, v: string): set<nat> {
    Matching(t, OfVersion(v))
  }

  function KeysOf(rows: seq<GroupRow>): set<Key> {
    set row | row in rows :: row.key
  }

  /** One row a key, each with the number of spans of that key. */
  predicate Grouped(rows: seq<GroupRow>, t: Tables) {
    && (forall i :: 0 <= i < |rows| ==> rows[i].key !in KeysOf(rows[..i]))
    && (forall i :: 0 <= i < |rows| ==> rows[i].count == |Matching(t, OfKey(rows[i].key))| > 0)
  }

  /** What the database may answer, in any order: such rows for every key that occurs. */
  predicate IsGrouping(rows: seq<GroupRow>, t: Tables) {
    && Grouped(rows, t)
    && (forall id :: id in Candidates(t) ==> KeyOf(t, id) in KeysOf(rows))
  }

  lemma KeysOfSnoc(rows: seq<GroupRow>, row: GroupRow)
    ensures KeysOf(rows + [row]) == KeysOf(rows) + {row.key}
  {
    assert row in rows + [row];
  }

  /** The spans that match and whose row has been read. */
  function Read(t: Tables, keys: set<Key>, q: Query): set<nat> {
    set id | id in Matching(t, q) && KeyOf(t, id) in keys
  }

  lemma ReadHit(t: Tables, keys: set<Key>, key: Key, q: Query)
    requires key !in keys && Wants(q, key)
    ensures |Read(t, keys + {key}, q)| == |Read(t, keys, q)| + |Matching(t, OfKey(key))|
  {
    var before, group := Read(t, keys, q), Matching(t, OfKey(key));
    assert before !! group;
    assert Read(t, keys + {key}, q) == before + group;
  }

  lemma ReadMiss(t: Tables, keys: set<Key>, key: Key, q: Query)
    requires !Wants(q, key)
    ensures Read(t, keys + {key}, q) == Read(t, keys, q)
  {
  }

  lemma ReadOne(t: Tables, keys: set<Key>, key: Key, q: Query)
    requires key !in keys
    ensures |Read(t, keys + {key}, q)| == |Read(t, keys, q)| + if Wants(q, key) then |Matching(t, OfKey(key))| else 0
  {
    if Wants(q, key) { ReadHit(t, keys, key, q); } else { ReadMiss(t, keys, key, q); }
  }

  lemma ReadAll(t: Tables, rows: seq<GroupRow>, q: Query)
    requires IsGrouping(rows, t)
    ensures Read(t, KeysOf(rows), q) == Matching(t, q)
  {
  }

  // ----- the report -----

  datatype Report = Report(
    byEntityType: map<string, nat>,
    modelVersion: Option<string>,
    accumulated: nat,
    manual: nat,
    automated: nat,
    fromBase: nat)

  /** The breakdown lists exactly the types that occur, each with its number of spans. */
  predicate Breakdown(t: Tables, keys: set<Key>, v: string, types: map<string, nat>) {
    && (forall e :: e in types ==> types[e] == |Read(t, keys, OfType(v, e))| > 0)
    && (forall id :: id in Read(t, keys, OfVersion(v)) ==> t.spans[id].entityType in types)
  }

  lemma BreakdownStep(t: Tables, keys: set<Key>, row: GroupRow, v: string, types: map<string, nat>)
    requires Breakdown(t, keys, v, types) && row.key !in keys && row.count == |Matching(t, OfKey(row.key))| > 0
    requires !row.key.byBase && row.key.version == v
    ensures var e := row.key.entityType;
            Breakdown(t, keys + {row.key}, v, AddTo(types, e, row.count))
  {
    var e := row.key.entityType;
    forall f ensures |Read(t, keys + {row.key}, OfType(v, f))| == |Read(t, keys, OfType(v, f))| + if f == e then row.count else 0 {
      ReadOne(t, keys, row.key, OfType(v, f));
    }
    if e !in types {
      assert forall id :: id in Read(t, keys, OfType(v, e)) ==> id in Read(t, keys, OfVersion(v));
      assert Read(t, keys, OfType(v, e)) == {};
    }
  }

  lemma BreakdownSkip(t: Tables, keys: set<Key>, key: Key, v: string, types: map<string, nat>)
    requires Breakdown(t, keys, v, types) && key !in keys && (key.byBase || key.version != v)
    ensures Breakdown(t, keys + {key}, v, types)
  {
    forall f ensures |Read(t, keys + {key}, OfType(v, f))| == |Read(t, keys, OfType(v, f))| {
      ReadOne(t, keys, key, OfType(v, f));
    }
  }

  lemma ReadEverything(t: Tables, rows: seq<GroupRow>, v: string)
    requires IsGrouping(rows, t)
    ensures Read(t, KeysOf(rows), OfBase) == Matching(t, OfBase)
    ensures Read(t, KeysOf(rows), OfVersion(v)) == Counted(t, v)
    ensures forall b :: Read(t, KeysOf(rows), OfSource(v, b)) == Matching(t, OfSource(v, b))
    ensures forall e :: Read(t, KeysOf(rows), OfType(v, e)) == Matching(t, OfType(v, e))
  {
    forall q ensures Read(t, KeysOf(rows), q) == Matching(t, q) { ReadAll(t, rows, q); }
  }

  datatype Tally = Tally(accumulated: nat, manual: nat, automated: nat, fromBase: nat, types: map<string, nat>)

  /** What the counters hold once the rows of these keys have been read. */
  predicate Tallied(t: Tables, keys: set<Key>, v: string, y: Tally) {
    CountersAt(t, keys, v, y) && Breakdown(t, keys, v, y.types)
  }

  predicate CountersAt(t: Tables, keys: set<Key>, v: string, y: Tally) {
    && y.fromBase == |Read(t, keys, OfBase)|
    && y.accumulated == |Read(t, keys, OfVersion(v))|
    && y.manual == |Read(t, keys, OfSource(v, false))|
    && y.automated == |Read(t, keys, OfSource(v, true))|
  }

  function AddTo(types: map<string, nat>, e: string, n: nat): map<string, nat> {
    types[e := (if e in types then types[e] else 0) + n]
  }

  function AddRow(y: Tally, row: GroupRow, v: string): Tally {
    if row.key.byBase then y.(fromBase := y.fromBase + row.count)
    else if row.key.version != v then y
    else if row.key.fromBatch then
      Tally(y.accumulated + row.count, y.manual, y.automated + row.count, y.fromBase, AddTo(y.types, row.key.entityType, row.count))
    else
      Tally(y.accumulated + row.count, y.manual + row.count, y.automated, y.fromBase, AddTo(y.types, row.key.entityType, row.count))
  }

  lemma CountsStep(t: Tables, keys: set<Key>, key: Key, v: string)
    requires key !in keys
    ensures var n := |Matching(t, OfKey(key))|; var mine := !key.byBase && key.version == v;
            && |Read(t, keys + {key}, OfBase)| == |Read(t, keys, OfBase)| + (if key.byBase then n else 0)
            && |Read(t, keys + {key}, OfVersion(v))| == |Read(t, keys, OfVersion(v))| + (if mine then n else 0)
            && |Read(t, keys + {key}, OfSource(v, true))| == |Read(t, keys, OfSource(v, true))| + (if mine && key.fromBatch then n else 0)
            && |Read(t, keys + {key}, OfSource(v, false))| == |Read(t, keys, OfSource(v, false))| + (if mine && !key.fromBatch then n else 0)
  {
    ReadOne(t, keys, key, OfBase);
    ReadOne(t, keys, key, OfVersion(v));
    ReadOne(t, keys, key, OfSource(v, false));
    ReadOne(t, keys, key, OfSource(v, true));
  }

  lemma CountersStep(t: Tables, keys: set<Key>, row: GroupRow, v: string, y: Tally)
    requires CountersAt(t, keys, v, y) && row.key !in keys && row.count == |Matching(t, OfKey(row.key))|
    ensures CountersAt(t, keys + {row.key}, v, AddRow(y, row, v))
  {
    CountsStep(t, keys, row.key, v);
  }

  lemma TallyStep(t: Tables, keys: set<Key>, row: GroupRow, v: string, y: Tally)
    requires Tallied(t, keys, v, y) && row.key !in keys && row.count == |Matching(t, OfKey(row.key))| > 0
    ensures Tallied(t, keys + {row.key}, v, AddRow(y, row, v))
  {
    CountersStep(t, keys, row, v, y);
    TypesStep(t, keys, row, v, y.types);
  }

  lemma TypesStep(t: Tables, keys: set<Key>, row: GroupRow, v: string, types: map<string, nat>)
    requires Breakdown(t, keys, v, types) && row.key !in keys && row.count == |Matching(t, OfKey(row.key))| > 0
    ensures Breakdown(t, keys + {row.key}, v,
                      if row.key.byBase || row.key.version != v then types else AddTo(types, row.key.entityType, row.count))
  {
    if row.key.byBase || row.key.version != v {
      BreakdownSkip(t, keys, row.key, v, types);
    } else {
      BreakdownStep(t, keys, row, v, types);
    }
  }

  function Fold(rows: seq<GroupRow>, v: string): Tally {
    if rows == [] then Tally(0, 0, 0, 0, map[]) else AddRow(Fold(rows[..|rows| - 1], v), rows[|rows| - 1], v)
  }

  lemma {:induction false} FoldTallies(t: Tables, rows: seq<GroupRow>, v: string)
    requires Grouped(rows, t)
    ensures Tallied(t, KeysOf(rows), v, Fold(rows, v))
  {
    if rows == [] {
      forall q ensures Read(t, KeysOf([]), q) == {} {}
    } else {
      var front, row := rows[..|rows| - 1], rows[|rows| - 1];
      assert rows == front + [row];
      GroupedFront(t, rows);
      FoldTallies(t, front, v);
      KeysOfSnoc(front, row);
      TallyStep(t, KeysOf(front), row, v, Fold(front, v));
    }
  }

  lemma GroupedFront(t: Tables, rows: seq<GroupRow>)
    requires Grouped(rows, t) && rows != []
    ensures Grouped(rows[..|rows| - 1], t)
  {
    var front := rows[..|rows| - 1];
    forall i | 0 <= i < |front| ensures front[i].key !in KeysOf(front[..i]) {
      assert front[..i] == rows[..i];
    }
  }

  function ReportOf(y: Tally, v: string): Report {
    if IsBaseModelVersion(Some(v)) then Report(map[], None, 0, 0, 0, y.fromBase)
    else Report(y.types, Some(v), y.accumulated, y.manual, y.automated, y.fromBase)
  }

  lemma FoldIsReport(t: Tables, rows: seq<GroupRow>, v: string)
    requires IsGrouping(rows, t)
    ensures IsReport(t, v, ReportOf(Fold(rows, v), v))
  {
    FoldTallies(t, rows, v);
    ReadEverything(t, rows, v);
  }

  method FoldRows(rows: seq<GroupRow>, version: string) returns (y: Tally)
    ensures y == Fold(rows, version)
  {
    var accumulated, fromBase, manual, automated := 0, 0, 0, 0;
    var types: map<string, nat> := map[];
    for i := 0 to |rows|
      invariant Tally(accumulated, manual, automated, fromBase, types) == Fold(rows[..i], version)
    {
      var key, count := rows[i].key, rows[i].count;
      assert rows[..i + 1][..i] == rows[..i];
      if key.byBase {
        fromBase := fromBase + count;
      } else if key.version == version {
        accumulated := accumulated + count;
        types := AddTo(types, key.entityType, count);
        if key.fromBatch {
          automated := automated + count;
        } else {
          manual := manual + count;
        }
      }
    }
    assert rows[..|rows|] == rows;
    return Tally(accumulated, manual, automated, fromBase, types);
  }

  /** Whatever order the rows come in, the report counts spans directly. */
  method AccumulationReport(t: Tables, rows: seq<GroupRow>) returns (report: Report)
    requires IsGrouping(rows, t)
    ensures IsReport(t, CurrentModelVersion(t.versions), report)
  {
    var version := CurrentModelVersion(t.versions);
    var y := FoldRows(rows, version);
    FoldIsReport(t, rows, version);
    if IsBaseModelVersion(Some(version)) {
      return Report(map[], None, 0, 0, 0, y.fromBase);
    }
    return Report(y.types, Some(version), y.accumulated, y.manual, y.automated, y.fromBase);
  }

  /** What the report says of the tables, counting spans one by one. */
  predicate IsReport(t: Tables, v: string, report: Report) {
    && report.fromBase == |Matching(t, OfBase)|
    && (if IsBaseModelVersion(Some(v)) then
          report == Report(map[], None, 0, 0, 0, report.fromBase)
        else
          && report.modelVersion == Some(v)
          && report.accumulated == |Counted(t, v)|
          && report.manual == |Matching(t, OfSource(v, false))|
          && report.automated == |Matching(t, OfSource(v, true))|
          && IsBreakdown(t, v, report.byEntityType))
  }

  /** Each type that occurs, with its number of spans, and no other. */
  predicate IsBreakdown(t: Tables, v: string, types: map<string, nat>) {
    && (forall e :: e in types ==> types[e] == |Matching(t, OfType(v, e))| > 0)
    && (forall id :: id in Counted(t, v) ==> t.spans[id].entityType in types)
  }

  /** The spans reviewed, existing and not consumed, for which a base model made the prediction. */
  function ByBase(t: Tables): set<nat> {
    set id | id in t.spans && id in t.reviews && id !in t.consumed && t.reviews[id].byBase
  }

  /** Those for which version `v` of the tenant's model did. */
  function ByVersion(t: Tables, v: string): set<nat> {
    set id | id in t.spans && id in t.reviews && id !in t.consumed && t.reviews[id].modelVersion == v && !t.reviews[id].byBase
  }

  function OfEntityType(t: Tables, ids: set<nat>, e: string): set<nat> {
    set id | id in ids && id in t.spans && t.spans[id].entityType == e
  }

  lemma MatchingIs(t: Tables, v: string)
    ensures Matching(t, OfBase) == ByBase(t) && Counted(t, v) == ByVersion(t, v)
    ensures Matching(t, OfSource(v, false)) == ByVersion(t, v) - t.promoted
    ensures Matching(t, OfSource(v, true)) == ByVersion(t, v) * t.promoted
  {
  }

  /** The figures of a report, read off the tables: one number for each of these sets. */
  lemma FiguresAre(t: Tables, v: string, report: Report)
    requires IsReport(t, v, report)
    ensures report.fromBase == |ByBase(t)|
    ensures IsBaseModelVersion(Some(v)) ==> report == Report(map[], None, 0, 0, 0, |ByBase(t)|)
    ensures !IsBaseModelVersion(Some(v)) ==>
              && report.modelVersion == Some(v)
              && report.accumulated == |ByVersion(t, v)|
              && report.manual == |ByVersion(t, v) - t.promoted|
              && report.automated == |ByVersion(t, v) * t.promoted|
  {
    MatchingIs(t, v);
  }

  /** And its breakdown: the types that occur, each with the number of its spans. */
  lemma TypeFigure(t: Tables, v: string, report: Report, e: string)
    requires IsReport(t, v, report) && !IsBaseModelVersion(Some(v))
    ensures e in report.byEntityType <==> OfEntityType(t, ByVersion(t, v), e) != {}
    ensures e in report.byEntityType ==> report.byEntityType[e] == |OfEntityType(t, ByVersion(t, v), e)|
  {
    var ids := OfEntityType(t, ByVersion(t, v), e);
    assert Matching(t, OfType(v, e)) == ids;
    if ids != {} {
      var id :| id in ids;
      assert id in Counted(t, v);
    }
  }

  // ----- the splits -----

  ghost function Any(m: map<string, nat>): (e: string)
    requires m != map[]
    ensures e in m
  {
    var e :| e in m; e
  }

  ghost function Total(m: map<string, nat>): nat {
    if m == map[] then 0 else m[Any(m)] + Total(m - {Any(m)})
  }

  function OfTypes(t: Tables, v: string, types: set<string>): set<nat> {
    set id | id in Counted(t, v) && t.spans[id].entityType in types
  }

  lemma TypesSplit(t: Tables, v: string, types: set<string>, e: string)
    requires e in types
    ensures |OfTypes(t, v, types)| == |OfTypes(t, v, types - {e})| + |Matching(t, OfType(v, e))|
  {
    assert OfTypes(t, v, types) == OfTypes(t, v, types - {e}) + Matching(t, OfType(v, e));
    assert OfTypes(t, v, types - {e}) !! Matching(t, OfType(v, e));
  }

  lemma {:induction false} TotalCounts(t: Tables, v: string, m: map<string, nat>)
    requires forall e :: e in m ==> m[e] == |Matching(t, OfType(v, e))|
    ensures Total(m) == |OfTypes(t, v, m.Keys)|
    decreases m.Keys
  {
    if m == map[] {
      assert OfTypes(t, v, {}) == {};
    } else {
      var e := Any(m);
      assert (m - {e}).Keys == m.Keys - {e};
      TotalCounts(t, v, m - {e});
      TypesSplit(t, v, m.Keys, e);
    }
  }

  lemma SourcesSum(t: Tables, v: string)
    ensures |Matching(t, OfSource(v, false))| + |Matching(t, OfSource(v, true))| == |Counted(t, v)|
  {
    var manual, automated := Matching(t, OfSource(v, false)), Matching(t, OfSource(v, true));
    assert manual !! automated;
    assert Counted(t, v) == manual + automated;
  }

  /** Both splits of a report add up to its figure. */
  lemma SplitsSum(t: Tables, v: string, report: Report)
    requires IsReport(t, v, report)
    ensures Total(report.byEntityType) == report.manual + report.automated == report.accumulated
  {
    if !IsBaseModelVersion(Some(v)) {
      SourcesSum(t, v);
      TotalCounts(t, v, report.byEntityType);
      assert Counted(t, v) == OfTypes(t, v, report.byEntityType.Keys);
    }
  }

  lemma GroupedSnoc(rows: seq<GroupRow>, t: Tables, key: Key)
    requires Grouped(rows, t) && key !in KeysOf(rows) && Matching(t, OfKey(key)) != {}
    ensures Grouped(rows + [GroupRow(key, |Matching(t, OfKey(key))|)], t)
  {
    var longer := rows + [GroupRow(key, |Matching(t, OfKey(key))|)];
    forall i | 0 <= i < |longer| ensures longer[i].key !in KeysOf(longer[..i]) {
      assert longer[..i] == rows[..i];
    }
  }

  lemma {:induction false} GroupingOf(t: Tables, keys: set<Key>) returns (rows: seq<GroupRow>)
    requires forall key :: key in keys ==> Matching(t, OfKey(key)) != {}
    ensures KeysOf(rows) == keys && Grouped(rows, t)
    decreases keys
  {
    if keys == {} {
      rows := [];
    } else {
      var key :| key in keys;
      var rest := GroupingOf(t, keys - {key});
      rows := rest + [GroupRow(key, |Matching(t, OfKey(key))|)];
      KeysOfSnoc(rest, GroupRow(key, |Matching(t, OfKey(key))|));
      GroupedSnoc(rest, t, key);
    }
  }

  /** Every state of the tables has an answer to the grouped query. */
  lemma GroupingExists(t: Tables) returns (rows: seq<GroupRow>)
    ensures IsGrouping(rows, t)
  {
    var keys := set id | id in Candidates(t) :: KeyOf(t, id);
    forall key | key in keys ensures Matching(t, OfKey(key)) != {} {
      var id :| id in Candidates(t) && KeyOf(t, id) == key;
      assert id in Matching(t, OfKey(key));
    }
    rows := GroupingOf(t, keys);
  }
}
