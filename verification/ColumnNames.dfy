/** Which `subject` column each definition owns, in closed form, and exactly when deactivating a
    definition moves the column of another. */
module ColumnNames {
  import opened Identifiers
  import opened Catalog

  // ----- the closed form -----

  function Next(s: string): string {
    s + "_2"
  }

  predicate IsNext(s: string) {
    |s| > 2 && s[|s| - 2] == '_' && s[|s| - 1] == '2'
  }

  function Base(s: string): string
    requires IsNext(s)
  {
    s[..|s| - 2]
  }

  lemma NextBase(s: string)
    requires s != ""
    ensures IsNext(Next(s)) && Base(Next(s)) == s
    ensures IsNext(s) ==> Next(Base(s)) == s
  {
  }

  lemma IdentityIsNoNext(x: string)
    requires x in IdentityColumns()
    ensures !IsNext(x) && x != ""
  {
  }

  /** The stripped identifiers of the active single definitions. */
  function Stems(ds: seq<Definition>): set<string> {
    set d | d in ds && Owns(d, CARDINALITY_SINGLE) :: Stripped(d)
  }

  /** A stem is bumped if it is an identity column, or ends in `_2` behind another stem that is bumped:
      the one before it has taken its name. */
  predicate Bumped(stems: set<string>, s: string)
    decreases |s|
  {
    s in IdentityColumns() || (IsNext(s) && Base(s) in stems && Bumped(stems, Base(s)))
  }

  function ColumnName(stems: set<string>, s: string): string {
    if Bumped(stems, s) then Next(s) else s
  }

  // ----- the loop computes it -----

  /** Active single definitions in the order the layout visits them. */
  predicate Layout(active: seq<Definition>) {
    && StrictlyOrdered(active)
    && forall i :: 0 <= i < |active| ==> IsGenerated(active[i].identifier) && |active[i].identifier| <= MAX_IDENTIFIER_LENGTH
  }

  function StemsOf(active: seq<Definition>): set<string> {
    set i | 0 <= i < |active| :: Stripped(active[i])
  }

  function NamesBefore(active: seq<Definition>, n: nat): set<string>
    requires n <= |active|
  {
    IdentityColumns() + set i | 0 <= i < n :: ColumnName(StemsOf(active), Stripped(active[i]))
  }

  lemma LayoutStems(active: seq<Definition>, i: nat)
    requires Layout(active) && i < |active|
    ensures active[i].identifier == "e_" + Stripped(active[i])
    ensures 0 < |Stripped(active[i])| <= 61
  {
    assert IsGenerated(active[i].identifier);
  }

  lemma LaterIsNotBefore(active: seq<Definition>, i: nat, j: nat)
    requires Layout(active) && i <= j < |active|
    ensures !Before(active[j].identifier, active[i].identifier)
  {
    BeforeIrreflexive(active[i].identifier);
    if Before(active[j].identifier, active[i].identifier) {
      BeforeTransitive(active[i].identifier, active[j].identifier, active[i].identifier);
    }
  }

  lemma NextIsLater(active: seq<Definition>, i: nat, j: nat)
    requires Layout(active) && i < |active| && j < |active| && Stripped(active[j]) == Next(Stripped(active[i]))
    ensures i < j
  {
    LayoutStems(active, i);
    LayoutStems(active, j);
    assert active[j].identifier == active[i].identifier + "_2";
    BeforeExtension(active[i].identifier, "_2");
    if j <= i { LaterIsNotBefore(active, j, i); }
  }

  lemma DistinctStems(active: seq<Definition>, i: nat, j: nat)
    requires Layout(active) && i < |active| && j < |active| && Stripped(active[i]) == Stripped(active[j])
    ensures i == j
  {
    LayoutStems(active, i);
    LayoutStems(active, j);
    BeforeIrreflexive(active[i].identifier);
  }

  /** A stem finds its own name taken exactly if it is bumped. */
  lemma TakenIffBumped(active: seq<Definition>, i: nat)
    requires Layout(active) && i < |active|
    ensures Stripped(active[i]) in NamesBefore(active, i) <==> Bumped(StemsOf(active), Stripped(active[i]))
  {
    var stems, s := StemsOf(active), Stripped(active[i]);
    LayoutStems(active, i);
    if s !in IdentityColumns() {
      if s in NamesBefore(active, i) {
        var j :| 0 <= j < i && s == ColumnName(stems, Stripped(active[j]));
        LayoutStems(active, j);
        NextBase(Stripped(active[j]));
        if !Bumped(stems, Stripped(active[j])) { DistinctStems(active, i, j); }
      }
      if Bumped(stems, s) {
        var j :| 0 <= j < |active| && Stripped(active[j]) == Base(s);
        NextBase(s);
        NextIsLater(active, j, i);
        assert ColumnName(stems, Stripped(active[j])) == s;
      }
    }
  }

  lemma NextIsFree(active: seq<Definition>, i: nat)
    requires Layout(active) && i < |active| && Bumped(StemsOf(active), Stripped(active[i]))
    ensures Next(Stripped(active[i])) !in NamesBefore(active, i)
  {
    var stems, s := StemsOf(active), Stripped(active[i]);
    LayoutStems(active, i);
    NextBase(s);
    if Next(s) in IdentityColumns() { IdentityIsNoNext(Next(s)); }
    if j :| 0 <= j < i && Next(s) == ColumnName(stems, Stripped(active[j])) {
      if Bumped(stems, Stripped(active[j])) {
        LayoutStems(active, j);
        NextBase(Stripped(active[j]));
        DistinctStems(active, i, j);
      } else {
        NextIsLater(active, i, j);
      }
    }
  }

  lemma SuffixedIsNext(s: string)
    requires |s| <= 61
    ensures Suffixed(s, 2) == Next(s)
  {
    assert Digits(2) == "2";
    assert Suffix(2) == "_2";
  }

  lemma UniqueIsColumnName(active: seq<Definition>, i: nat)
    requires Layout(active) && i < |active|
    ensures UniqueColumn(Stripped(active[i]), NamesBefore(active, i)) == ColumnName(StemsOf(active), Stripped(active[i]))
  {
    LayoutStems(active, i);
    TakenIffBumped(active, i);
    if Bumped(StemsOf(active), Stripped(active[i])) {
      NextIsFree(active, i);
      SuffixedIsNext(Stripped(active[i]));
    }
  }

  lemma NamesBeforeStep(active: seq<Definition>, n: nat)
    requires n < |active|
    ensures NamesBefore(active, n + 1) == NamesBefore(active, n) + {ColumnName(StemsOf(active), Stripped(active[n]))}
  {
  }

  /** The columns from the `n`-th definition on. */
  function Laid(active: seq<Definition>, n: nat): (cs: seq<SubjectColumn>)
    requires n <= |active|
  {
    seq(|active| - n, k requires 0 <= k < |active| - n => LaidAt(active, n + k))
  }

  function LaidAt(active: seq<Definition>, n: nat): SubjectColumn
    requires n < |active|
  {
    SubjectColumn(active[n], ColumnName(StemsOf(active), Stripped(active[n])), SubjectColumnType(active[n].valueKind))
  }

  lemma LaidStep(active: seq<Definition>, n: nat)
    requires n < |active|
    ensures Laid(active, n) == [LaidAt(active, n)] + Laid(active, n + 1)
  {
    var all, rest := Laid(active, n), [LaidAt(active, n)] + Laid(active, n + 1);
    forall k | 0 <= k < |all| ensures all[k] == rest[k] {
      if k > 0 { assert n + 1 + (k - 1) == n + k; }
    }
  }

  lemma ProjectStep(active: seq<Definition>, n: nat)
    requires Layout(active) && n < |active|
    ensures Project(active[n..], NamesBefore(active, n)) ==
            Prepend([LaidAt(active, n)], Project(active[n + 1..], NamesBefore(active, n + 1)))
  {
    UniqueIsColumnName(active, n);
    NamesBeforeStep(active, n);
    assert active[n..][1..] == active[n + 1..];
  }

  lemma {:induction false} ProjectIsLaid(active: seq<Definition>, n: nat)
    requires Layout(active) && n <= |active|
    ensures Project(active[n..], NamesBefore(active, n)) == Ok(Laid(active, n))
    decreases |active| - n
  {
    if n < |active| {
      ProjectStep(active, n);
      ProjectIsLaid(active, n + 1);
      LaidStep(active, n);
    } else {
      assert active[n..] == [] && Laid(active, n) == [];
    }
  }

  lemma ActiveLayout(ds: seq<Definition>)
    requires FitsColumn(ds) && DistinctIdentifiers(ds) && SubjectColumns(ds).Ok?
    ensures Layout(Active(ds, CARDINALITY_SINGLE))
  {
    var active := Active(ds, CARDINALITY_SINGLE);
    ActiveMembers(ds, CARDINALITY_SINGLE);
    ActiveOrdered(ds, CARDINALITY_SINGLE);
    SubjectColumnsDistinct(ds);
    forall i | 0 <= i < |active| ensures IsGenerated(active[i].identifier) && |active[i].identifier| <= MAX_IDENTIFIER_LENGTH {
      assert active[i] in active;
    }
  }

  lemma ActiveStems(ds: seq<Definition>)
    ensures StemsOf(Active(ds, CARDINALITY_SINGLE)) == Stems(ds)
  {
    var active := Active(ds, CARDINALITY_SINGLE);
    ActiveMembers(ds, CARDINALITY_SINGLE);
    forall s | s in Stems(ds) ensures s in StemsOf(active) {
      var d :| d in ds && Owns(d, CARDINALITY_SINGLE) && Stripped(d) == s;
      var i :| 0 <= i < |active| && active[i] == d;
    }
    forall s | s in StemsOf(active) ensures s in Stems(ds) {
      var i :| 0 <= i < |active| && Stripped(active[i]) == s;
      assert active[i] in active;
    }
  }

  /** The loop that grows `taken` in closed form: whatever the order and the other definitions, a column
      is the stripped identifier, with `_2` behind it exactly if the stem is bumped. */
  lemma ColumnNamesAre(ds: seq<Definition>)
    requires FitsColumn(ds) && DistinctIdentifiers(ds) && SubjectColumns(ds).Ok?
    ensures forall c :: c in SubjectColumns(ds).value ==>
              Stripped(c.definition) in Stems(ds) && c.name == ColumnName(Stems(ds), Stripped(c.definition))
  {
    var active, cs := Active(ds, CARDINALITY_SINGLE), SubjectColumns(ds).value;
    ActiveLayout(ds);
    ActiveStems(ds);
    assert active[0..] == active && NamesBefore(active, 0) == IdentityColumns();
    ProjectIsLaid(active, 0);
    forall c | c in cs ensures Stripped(c.definition) in Stems(ds) && c.name == ColumnName(Stems(ds), Stripped(c.definition)) {
      var k :| 0 <= k < |cs| && cs[k] == c;
      assert c == LaidAt(active, k) && Stripped(active[k]) in StemsOf(active);
    }
  }

  // ----- when a column moves -----

  /** Every active single definition of `p` is one of `q`: what deactivations make of `q`. */
  predicate Deactivates(q: seq<Definition>, p: seq<Definition>) {
    && FitsColumn(p) && DistinctIdentifiers(p)
    && forall d :: d in p && Owns(d, CARDINALITY_SINGLE) ==> d in q
  }

  /** One definition switched off. */
  function Deactivated(ds: seq<Definition>, identifier: string): (r: seq<Definition>)
    ensures |r| == |ds|
    ensures forall i :: 0 <= i < |ds| ==> r[i] == if ds[i].identifier == identifier then ds[i].(isActive := false) else ds[i]
  {
    seq(|ds|, i requires 0 <= i < |ds| => if ds[i].identifier == identifier then ds[i].(isActive := false) else ds[i])
  }

  /** Every column of `p` is the one its definition has in `q`. */
  predicate SameColumns(p: seq<Definition>, q: seq<Definition>) {
    SubjectColumns(p).Ok? && SubjectColumns(q).Ok? && forall c :: c in SubjectColumns(p).value ==> c in SubjectColumns(q).value
  }

  /** An identity column's name and that name with `_2` are both stems. */
  predicate Chained(ds: seq<Definition>) {
    exists x :: x in IdentityColumns() && x in Stems(ds) && Next(x) in Stems(ds)
  }

  lemma {:induction false} BumpedMonotone(a: set<string>, b: set<string>, s: string)
    requires a <= b && Bumped(a, s)
    ensures Bumped(b, s)
    decreases |s|
  {
    if s !in IdentityColumns() { BumpedMonotone(a, b, Base(s)); }
  }

  lemma {:induction false} BumpedStartsChain(stems: set<string>, s: string)
    requires s in stems && Bumped(stems, s) && s !in IdentityColumns()
    ensures exists x :: x in IdentityColumns() && x in stems && Next(x) in stems
    decreases |s|
  {
    NextBase(s);
    if Base(s) in IdentityColumns() {
      assert Base(s) in stems && Next(Base(s)) in stems;
    } else {
      BumpedStartsChain(stems, Base(s));
    }
  }

  lemma DeactivatesColumns(q: seq<Definition>, p: seq<Definition>)
    requires FitsColumn(q) && DistinctIdentifiers(q) && SubjectColumns(q).Ok? && Deactivates(q, p)
    ensures SubjectColumns(p).Ok? && Stems(p) <= Stems(q)
    ensures forall c :: c in SubjectColumns(p).value ==>
              var e := SubjectColumn(c.definition, ColumnName(Stems(q), Stripped(c.definition)), c.columnType);
              e in SubjectColumns(q).value
  {
    SubjectColumnsDistinct(p);
    SubjectColumnsDistinct(q);
    ColumnNamesAre(q);
    forall c | c in SubjectColumns(p).value
      ensures SubjectColumn(c.definition, ColumnName(Stems(q), Stripped(c.definition)), c.columnType) in SubjectColumns(q).value
    {
      assert c.definition in p && Owns(c.definition, CARDINALITY_SINGLE);
      var e :| e in SubjectColumns(q).value && e.definition == c.definition;
      assert e == SubjectColumn(c.definition, ColumnName(Stems(q), Stripped(c.definition)), c.columnType);
    }
  }

  lemma UnchainedKeeps(q: seq<Definition>, p: seq<Definition>)
    requires FitsColumn(q) && DistinctIdentifiers(q) && SubjectColumns(q).Ok? && Deactivates(q, p) && !Chained(q)
    ensures SameColumns(p, q)
  {
    DeactivatesColumns(q, p);
    ColumnNamesAre(p);
    forall c | c in SubjectColumns(p).value ensures c in SubjectColumns(q).value {
      var s := Stripped(c.definition);
      if Bumped(Stems(p), s) {
        BumpedMonotone(Stems(p), Stems(q), s);
      } else if Bumped(Stems(q), s) {
        BumpedStartsChain(Stems(q), s);
      }
    }
  }

  lemma OwnerOfStem(q: seq<Definition>, s: string) returns (d: Definition)
    requires s in Stems(q) && SubjectColumns(q).Ok? && FitsColumn(q)
    ensures d in q && Owns(d, CARDINALITY_SINGLE) && Stripped(d) == s && d.identifier == "e_" + s
  {
    SubjectColumnsDistinct(q);
    d :| d in q && Owns(d, CARDINALITY_SINGLE) && Stripped(d) == s;
  }

  lemma DeactivatedOwns(q: seq<Definition>, identifier: string, d: Definition)
    ensures d in Deactivated(q, identifier) && Owns(d, CARDINALITY_SINGLE) <==>
            d in q && Owns(d, CARDINALITY_SINGLE) && d.identifier != identifier
  {
    var p := Deactivated(q, identifier);
    if d in p && Owns(d, CARDINALITY_SINGLE) {
      var i :| 0 <= i < |p| && p[i] == d;
      assert q[i] == d;
    }
    if d in q && d.identifier != identifier {
      var i :| 0 <= i < |q| && q[i] == d;
      assert p[i] == d;
    }
  }

  lemma DeactivatedDeactivates(q: seq<Definition>, identifier: string)
    requires FitsColumn(q) && DistinctIdentifiers(q)
    ensures Deactivates(q, Deactivated(q, identifier))
  {
    var p := Deactivated(q, identifier);
    forall d | d in p ensures |d.identifier| <= MAX_IDENTIFIER_LENGTH {
      var i :| 0 <= i < |p| && p[i] == d;
      assert q[i] in q;
    }
    forall d | d in p && Owns(d, CARDINALITY_SINGLE) ensures d in q { DeactivatedOwns(q, identifier, d); }
  }

  lemma DeactivatedStems(q: seq<Definition>, s: string)
    requires FitsColumn(q) && SubjectColumns(q).Ok?
    ensures Stems(Deactivated(q, "e_" + s)) == Stems(q) - {s}
  {
    var p := Deactivated(q, "e_" + s);
    forall t | t in Stems(p) ensures t in Stems(q) && t != s { StemLeft(q, s, t); }
    forall t | t in Stems(q) && t != s ensures t in Stems(p) { StemKept(q, s, t); }
  }

  lemma StemLeft(q: seq<Definition>, s: string, t: string)
    requires FitsColumn(q) && SubjectColumns(q).Ok? && t in Stems(Deactivated(q, "e_" + s))
    ensures t in Stems(q) && t != s
  {
    var p := Deactivated(q, "e_" + s);
    var d :| d in p && Owns(d, CARDINALITY_SINGLE) && Stripped(d) == t;
    DeactivatedOwns(q, "e_" + s, d);
    SubjectColumnsDistinct(q);
    assert d.identifier == "e_" + t;
  }

  lemma StemKept(q: seq<Definition>, s: string, t: string)
    requires FitsColumn(q) && SubjectColumns(q).Ok? && t in Stems(q) && t != s
    ensures t in Stems(Deactivated(q, "e_" + s))
  {
    var d := OwnerOfStem(q, t);
    assert d.identifier[2..] == t && ("e_" + s)[2..] == s;
    DeactivatedOwns(q, "e_" + s, d);
  }

  lemma ColumnOfStem(q: seq<Definition>, s: string) returns (c: SubjectColumn)
    requires FitsColumn(q) && DistinctIdentifiers(q) && SubjectColumns(q).Ok? && s in Stems(q)
    ensures c in SubjectColumns(q).value && Stripped(c.definition) == s && c.name == ColumnName(Stems(q), s)
  {
    var d := OwnerOfStem(q, s);
    SubjectColumnsDistinct(q);
    c :| c in SubjectColumns(q).value && c.definition == d;
    ColumnNamesAre(q);
  }

  lemma NextIsBumped(stems: set<string>, s: string)
    requires s != "" && s in stems && Bumped(stems, s)
    ensures ColumnName(stems, Next(s)) == Next(Next(s)) && ColumnName(stems - {s}, Next(s)) == Next(s)
  {
    NextBase(s);
    if Next(s) in IdentityColumns() { IdentityIsNoNext(Next(s)); }
  }

  /** Switching off a bumped definition hands its column to the one behind it. */
  lemma ColumnMoves(q: seq<Definition>, s: string) returns (c: SubjectColumn)
    requires FitsColumn(q) && DistinctIdentifiers(q) && SubjectColumns(q).Ok?
    requires s != "" && s in Stems(q) && Bumped(Stems(q), s) && Next(s) in Stems(q)
    ensures var p := Deactivated(q, "e_" + s);
            && Deactivates(q, p) && SubjectColumns(p).Ok?
            && c in SubjectColumns(p).value && Stripped(c.definition) == Next(s) && c.name == Next(s)
            && c !in SubjectColumns(q).value
  {
    var p := Deactivated(q, "e_" + s);
    DeactivatedDeactivates(q, "e_" + s);
    DeactivatedStems(q, s);
    DeactivatesColumns(q, p);
    NextIsBumped(Stems(q), s);
    c := ColumnOfStem(p, Next(s));
    ColumnNamesAre(q);
  }

  /** Deactivating definitions leaves every other column where it was, for all choices, exactly when no
      identity column's name is a stem together with that name and `_2`. */
  lemma ColumnsMoveIff(q: seq<Definition>)
    requires FitsColumn(q) && DistinctIdentifiers(q) && SubjectColumns(q).Ok?
    ensures (forall p :: Deactivates(q, p) ==> SameColumns(p, q)) <==> !Chained(q)
  {
    if x :| x in IdentityColumns() && x in Stems(q) && Next(x) in Stems(q) {
      IdentityIsNoNext(x);
      var c := ColumnMoves(q, x);
    } else {
      forall p | Deactivates(q, p) ensures SameColumns(p, q) { UnchainedKeeps(q, p); }
    }
  }
}
