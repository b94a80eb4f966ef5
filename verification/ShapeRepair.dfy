/** Revision 0043's repair pass over the pricing columns, and when a second pass has nothing to do. */
module ShapeRepair {
  import opened Prelude
  import opened ColumnRepair

  // -- types ----------------------------------------------------------------

  /** A reflected or intended type. TEXT, CHAR and the like are subclasses of String. */
  datatype SqlType =
    | Varchar(length: Option<nat>)
    | TextType
    | StringSubclass(name: string, length: Option<nat>)
    | Jsonb
    | OtherType(name: string)

  /** The intended types the revision passes. */
  predicate Intended(t: SqlType) {
    t.Varchar? || t.TextType? || t.Jsonb?
  }

  function LengthOf(t: SqlType): Option<nat> {
    match t
    case Varchar(n) => n
    case StringSubclass(_, n) => n
    case _ => None
  }

  predicate IsString(t: SqlType) {
    t.Varchar? || t.TextType? || t.StringSubclass?
  }

  /** `_type_matches`. */
  predicate TypeMatches(current: SqlType, expected: SqlType)
    requires Intended(expected)
  {
    match expected
    case Varchar(n) => IsString(current) && (n.Some? ==> LengthOf(current) == n)
    case TextType => current.TextType?
    case Jsonb => current.Jsonb?
  }

  // -- columns and ALTERs ---------------------------------------------------

  datatype Column = Column(sqlType: SqlType, nullable: bool, default: Option<string>)

  datatype Shape = Shape(sqlType: SqlType, nullable: bool, default: Option<string>)

  datatype Alter =
    | SetType(sqlType: SqlType, usingText: bool)
    | SetNullable(nullable: bool)
    | SetDefault(default: Option<string>)

  /** What the database does with a default when the column's type changes, and the names it
      reports types by. */
  datatype Dialect = Dialect(recast: (string, SqlType) -> string, typeName: SqlType -> string)

  function Altered(db: Dialect, c: Column, alter: Alter): Column {
    match alter
    case SetType(t, _) =>
      Column(t, c.nullable, if c.default.Some? then Some((db.recast)(c.default.value, t)) else None)
    case SetNullable(n) => c.(nullable := n)
    case SetDefault(None) => c.(default := None)
    case SetDefault(Some(d)) => c.(default := Some(Echo(d, (db.typeName)(c.sqlType))))
  }

  function AlteredBy(db: Dialect, c: Column, alters: seq<Alter>): Column
    decreases |alters|
  {
    if alters == [] then c else AlteredBy(db, Altered(db, c, alters[0]), alters[1..])
  }

  // -- the repair of one column ---------------------------------------------

  predicate DefaultDiffers(c: Column, want: Shape) {
    if want.default.Some? then Normalize(c.default) != Normalize(want.default) else c.default.Some?
  }

  function TypeRepairs(c: Column, want: Shape, usingText: bool): seq<Alter>
    requires Intended(want.sqlType)
  {
    if !TypeMatches(c.sqlType, want.sqlType) then [SetType(want.sqlType, usingText)] else []
  }

  function NullabilityRepairs(c: Column, want: Shape): seq<Alter> {
    if c.nullable != want.nullable then [SetNullable(want.nullable)] else []
  }

  function DefaultRepairs(c: Column, want: Shape): seq<Alter> {
    if DefaultDiffers(c, want) then [SetDefault(want.default)] else []
  }

  /** The ALTERs `_repair_column_shape` issues: all three are decided from one reading of the
      column, before any of them. */
  function Repairs(c: Column, want: Shape, usingText: bool): seq<Alter>
    requires Intended(want.sqlType)
  {
    TypeRepairs(c, want, usingText) + NullabilityRepairs(c, want) + DefaultRepairs(c, want)
  }

  function Repaired(db: Dialect, c: Column, want: Shape, usingText: bool): Column
    requires Intended(want.sqlType)
  {
    AlteredBy(db, c, Repairs(c, want, usingText))
  }

  /** The column has the intended shape, its default read as the repair reads it. */
  predicate InShape(c: Column, want: Shape)
    requires Intended(want.sqlType)
  {
    TypeMatches(c.sqlType, want.sqlType) && c.nullable == want.nullable && !DefaultDiffers(c, want)
  }

  /** Which ALTERs are issued, and in which order: one for the type, one for NULL, one for the
      default. */
  lemma RepairsAre(c: Column, want: Shape, usingText: bool)
    requires Intended(want.sqlType)
    ensures forall alter :: alter in Repairs(c, want, usingText) <==>
              || (alter == SetType(want.sqlType, usingText) && !TypeMatches(c.sqlType, want.sqlType))
              || (alter == SetNullable(want.nullable) && c.nullable != want.nullable)
              || (alter == SetDefault(want.default) &&
                  if want.default.None? then c.default.Some? else Normalize(c.default) != Normalize(want.default))
    ensures forall i, j :: 0 <= i < j < |Repairs(c, want, usingText)| ==>
              var a, b := Repairs(c, want, usingText)[i], Repairs(c, want, usingText)[j];
              (a.SetType? && !b.SetType?) || (a.SetNullable? && b.SetDefault?)
  {
    var a, b, d := TypeRepairs(c, want, usingText), NullabilityRepairs(c, want), DefaultRepairs(c, want);
    var all := Repairs(c, want, usingText);
    assert all == a + b + d && |a| <= 1 && |b| <= 1 && |d| <= 1;
    assert forall i :: 0 <= i < |all| ==>
             all[i] == if i < |a| then a[i] else if i < |a| + |b| then b[i - |a|] else d[i - |a| - |b|];
  }

  /** No ALTER is issued exactly for a column in shape. */
  lemma IdleIff(c: Column, want: Shape, usingText: bool)
    requires Intended(want.sqlType)
    ensures Repairs(c, want, usingText) == [] <==> InShape(c, want)
  {
  }

  lemma AlteredByThree(db: Dialect, c: Column, a: seq<Alter>, b: seq<Alter>, d: seq<Alter>)
    requires |a| <= 1 && |b| <= 1 && |d| <= 1
    ensures AlteredBy(db, c, a + b + d) == AlteredBy(db, AlteredBy(db, AlteredBy(db, c, a), b), d)
  {
    AlteredByConcat(db, c, a + b, d);
    AlteredByConcat(db, c, a, b);
  }

  lemma {:induction false} AlteredByConcat(db: Dialect, c: Column, a: seq<Alter>, b: seq<Alter>)
    ensures AlteredBy(db, c, a + b) == AlteredBy(db, AlteredBy(db, c, a), b)
    decreases |a|
  {
    if a == [] {
      assert a + b == b;
    } else {
      assert (a + b)[1..] == a[1..] + b;
      AlteredByConcat(db, Altered(db, c, a[0]), a[1..], b);
    }
  }

  /** What one pass leaves, field by field: the type and the nullability as intended always; the
      default dropped, set, or kept as the change of type left it. */
  lemma RepairedIs(db: Dialect, c: Column, want: Shape, usingText: bool)
    requires Intended(want.sqlType)
    ensures var r := Repaired(db, c, want, usingText);
            && r.sqlType == (if TypeMatches(c.sqlType, want.sqlType) then c.sqlType else want.sqlType)
            && r.nullable == want.nullable
            && (want.default.None? ==> r.default == None)
            && (want.default.Some? && DefaultDiffers(c, want) ==>
                  r.default == Some(Echo(want.default.value, (db.typeName)(r.sqlType))))
            && (want.default.Some? && !DefaultDiffers(c, want) ==> r.default == AfterRetype(db, c, want))
  {
    var a, b, d := TypeRepairs(c, want, usingText), NullabilityRepairs(c, want), DefaultRepairs(c, want);
    AlteredByThree(db, c, a, b, d);
    var c1 := AlteredBy(db, c, a);
    assert a != [] ==> a[1..] == [];
    assert b != [] ==> b[1..] == [];
    assert d != [] ==> d[1..] == [];
    assert c1 == if a == [] then c else Altered(db, c, a[0]);
    var c2 := AlteredBy(db, c1, b);
    assert c2 == c1.(nullable := want.nullable);
    assert AlteredBy(db, c2, d) == if d == [] then c2 else Altered(db, c2, d[0]);
  }

  /** Which types count as the intended one: a string of just that length for a bounded one, any
      kind of string for an unbounded one, TEXT and JSONB only themselves. */
  lemma TypeMatchesIff(current: SqlType, expected: SqlType)
    requires Intended(expected)
    ensures TypeMatches(current, expected) <==>
            match expected
            case Varchar(Some(n)) =>
              current == Varchar(Some(n)) || (exists name :: current == StringSubclass(name, Some(n)))
            case Varchar(None) =>
              current == TextType || (exists n :: current == Varchar(n)) ||
              (exists name, n :: current == StringSubclass(name, n))
            case TextType => current == TextType
            case Jsonb => current == Jsonb
  {
    if current.StringSubclass? {
      assert current == StringSubclass(current.name, current.length);
    }
    if current.Varchar? {
      assert current == Varchar(current.length);
    }
  }

  /** So after a pass a bounded string has the intended length, whatever it had. */
  lemma BoundedHasItsLength(db: Dialect, c: Column, want: Shape, usingText: bool, n: nat)
    requires want.sqlType == Varchar(Some(n))
    ensures var t := Repaired(db, c, want, usingText).sqlType;
            t == Varchar(Some(n)) || (t.StringSubclass? && t.length == Some(n) && t == c.sqlType)
  {
    RepairedIs(db, c, want, usingText);
    TypeMatchesIff(c.sqlType, want.sqlType);
  }

  /** The default after the change of type alone. */
  function AfterRetype(db: Dialect, c: Column, want: Shape): Option<string>
    requires Intended(want.sqlType)
  {
    if c.default.Some? && !TypeMatches(c.sqlType, want.sqlType)
    then Some((db.recast)(c.default.value, want.sqlType)) else c.default
  }

  /** One pass suffices exactly when the intended default, if it is set, has no quote in it, and
      if it is found in place, is still read as itself after the change of type. */
  lemma SecondPassIdleIff(db: Dialect, c: Column, want: Shape, usingText: bool)
    requires Intended(want.sqlType)
    ensures Repairs(Repaired(db, c, want, usingText), want, usingText) == [] <==>
              (want.default.None?
               || (if DefaultDiffers(c, want) then '\'' !in want.default.value
                   else Normalize(AfterRetype(db, c, want)) == Normalize(want.default)))
  {
    var r := Repaired(db, c, want, usingText);
    RepairedIs(db, c, want, usingText);
    IdleIff(r, want, usingText);
    assert TypeMatches(want.sqlType, want.sqlType);
    if want.default.Some? && DefaultDiffers(c, want) {
      EchoReadsBackIff(want.default.value, (db.typeName)(r.sqlType));
    }
  }

  // -- the revision's pass over its columns ---------------------------------

  datatype PricingColumn =
    | OfferPricingMetadata
    | SnapshotProviderRateExact | SnapshotPricingMetadata | SnapshotSellingCurrency | SnapshotOfferFingerprint
    | ServerImageId | ServerOfferFingerprint
    | AccrualCostCurrency | AccrualSellingCurrency | AccrualCostAmount | AccrualRuleKey
    | OrderProviderMonthlyRateExact | OrderPricingMetadata

  function Want(column: PricingColumn): (want: Shape)
    ensures Intended(want.sqlType)
  {
    match column
    case OfferPricingMetadata | SnapshotPricingMetadata | OrderPricingMetadata => Shape(Jsonb, false, Some("{}"))
    case SnapshotOfferFingerprint | ServerOfferFingerprint => Shape(Jsonb, true, None)
    case SnapshotSellingCurrency | AccrualCostCurrency | AccrualSellingCurrency => Shape(Varchar(Some(3)), true, None)
    case SnapshotProviderRateExact | AccrualCostAmount | OrderProviderMonthlyRateExact => Shape(TextType, true, None)
    case ServerImageId | AccrualRuleKey => Shape(Varchar(None), true, None)
  }

  /** Column by column, what the revision wants: every exact amount as text, currencies of three
      letters, audit objects as JSON, those that must be there with an empty one as default. */
  lemma WantedIs(column: PricingColumn)
    ensures Want(column).nullable <==>
              column != OfferPricingMetadata && column != SnapshotPricingMetadata && column != OrderPricingMetadata
    ensures Want(column).default == if Want(column).nullable then None else Some("{}")
    ensures column in {SnapshotProviderRateExact, AccrualCostAmount, OrderProviderMonthlyRateExact} ==>
              Want(column).sqlType == TextType
    ensures column in {SnapshotSellingCurrency, AccrualCostCurrency, AccrualSellingCurrency} ==>
              Want(column).sqlType == Varchar(Some(3))
    ensures column in {OfferPricingMetadata, SnapshotPricingMetadata, OrderPricingMetadata} ==>
              Want(column).sqlType == Jsonb
    ensures column in {SnapshotOfferFingerprint, ServerOfferFingerprint} ==> Want(column).sqlType == Jsonb
    ensures column in {ServerImageId, AccrualRuleKey} ==> Want(column).sqlType == Varchar(None)
    ensures UsesText(column) <==> column == SnapshotProviderRateExact
  {
  }

  /** The one widening that is spelled with USING. */
  predicate UsesText(column: PricingColumn) {
    column == SnapshotProviderRateExact
  }

  const PRICING_COLUMNS: seq<PricingColumn> := [
    OfferPricingMetadata,
    SnapshotProviderRateExact, SnapshotPricingMetadata, SnapshotSellingCurrency, SnapshotOfferFingerprint,
    ServerImageId, ServerOfferFingerprint,
    AccrualCostCurrency, AccrualSellingCurrency, AccrualCostAmount, AccrualRuleKey,
    OrderProviderMonthlyRateExact, OrderPricingMetadata]

  type Columns = map<PricingColumn, Column>

  function RepairsFor(columns: Columns, column: PricingColumn): seq<Alter> {
    if column in columns then Repairs(columns[column], Want(column), UsesText(column)) else []
  }

  function RepairedOne(db: Dialect, columns: Columns, column: PricingColumn): Columns {
    if column in columns
    then columns[column := Repaired(db, columns[column], Want(column), UsesText(column))]
    else columns
  }

  function RepairedAll(db: Dialect, columns: Columns, wanted: seq<PricingColumn>): Columns {
    if wanted == [] then columns
    else RepairedOne(db, RepairedAll(db, columns, wanted[..|wanted| - 1]), wanted[|wanted| - 1])
  }

  /** All the ALTERs of a pass, in order. */
  function AllRepairs(db: Dialect, columns: Columns, wanted: seq<PricingColumn>): seq<Alter> {
    if wanted == [] then []
    else
      var init := wanted[..|wanted| - 1];
      AllRepairs(db, columns, init) + RepairsFor(RepairedAll(db, columns, init), wanted[|wanted| - 1])
  }

  lemma Reassociate<T>(a: seq<T>, b: seq<T>, c: seq<T>)
    ensures a + b + c == a + (b + c)
  {
  }

  lemma Overwrite<K, V>(m: map<K, V>, k: K, v: V, w: V)
    ensures m[k := v][k := w] == m[k := w]
  {
  }

  lemma PassStep(db: Dialect, columns: Columns, wanted: seq<PricingColumn>, i: nat)
    requires i < |wanted|
    ensures RepairedAll(db, columns, wanted[..i + 1]) == RepairedOne(db, RepairedAll(db, columns, wanted[..i]),
                                                                     wanted[i])
    ensures AllRepairs(db, columns, wanted[..i + 1]) ==
            AllRepairs(db, columns, wanted[..i]) + RepairsFor(RepairedAll(db, columns, wanted[..i]), wanted[i])
  {
    assert wanted[..i + 1][..i] == wanted[..i];
  }

  predicate Distinct(wanted: seq<PricingColumn>) {
    forall i, j :: 0 <= i < j < |wanted| ==> wanted[i] != wanted[j]
  }

  /** Each column is repaired by itself. */
  lemma {:induction false} RepairedAllIs(db: Dialect, columns: Columns, wanted: seq<PricingColumn>,
                                         column: PricingColumn)
    requires Distinct(wanted)
    ensures column in RepairedAll(db, columns, wanted) <==> column in columns
    ensures column in columns ==>
              RepairedAll(db, columns, wanted)[column] ==
              if column in wanted then Repaired(db, columns[column], Want(column), UsesText(column))
              else columns[column]
    decreases |wanted|
  {
    if wanted != [] {
      var init, last := wanted[..|wanted| - 1], wanted[|wanted| - 1];
      assert wanted == init + [last];
      RepairedAllIs(db, columns, init, column);
    }
  }

  predicate IdleFor(columns: Columns, wanted: seq<PricingColumn>) {
    forall column :: column in wanted ==> RepairsFor(columns, column) == []
  }

  lemma {:induction false} AllRepairsIdleIff(db: Dialect, columns: Columns, wanted: seq<PricingColumn>)
    requires Distinct(wanted)
    ensures AllRepairs(db, columns, wanted) == [] <==> IdleFor(columns, wanted)
    decreases |wanted|
  {
    if wanted != [] {
      var init, last := wanted[..|wanted| - 1], wanted[|wanted| - 1];
      assert wanted == init + [last];
      AllRepairsIdleIff(db, columns, init);
      RepairedAllIs(db, columns, init, last);
      assert last !in init;
      assert RepairsFor(RepairedAll(db, columns, init), last) == RepairsFor(columns, last);
      assert forall column :: column in wanted <==> column in init || column == last;
    }
  }

  function Rank(column: PricingColumn): nat {
    match column
    case OfferPricingMetadata => 0
    case SnapshotProviderRateExact => 1
    case SnapshotPricingMetadata => 2
    case SnapshotSellingCurrency => 3
    case SnapshotOfferFingerprint => 4
    case ServerImageId => 5
    case ServerOfferFingerprint => 6
    case AccrualCostCurrency => 7
    case AccrualSellingCurrency => 8
    case AccrualCostAmount => 9
    case AccrualRuleKey => 10
    case OrderProviderMonthlyRateExact => 11
    case OrderPricingMetadata => 12
  }

  lemma PricingColumnsAreListed()
    ensures Distinct(PRICING_COLUMNS)
    ensures forall column: PricingColumn :: column in PRICING_COLUMNS
  {
    assert forall i :: 0 <= i < |PRICING_COLUMNS| ==> Rank(PRICING_COLUMNS[i]) == i;
    forall column: PricingColumn ensures column in PRICING_COLUMNS {
      assert PRICING_COLUMNS[Rank(column)] == column;
    }
  }

  /** A `{}` default found in place is still read so after the column became JSONB. */
  predicate KeepsDefault(db: Dialect, c: Column, want: Shape)
    requires Intended(want.sqlType)
  {
    want.default.None? || DefaultDiffers(c, want)
    || Normalize(AfterRetype(db, c, want)) == Normalize(want.default)
  }

  /** A second run of the whole pass issues no ALTER exactly when the database kept those
      defaults: from any drift whatever of types, nullability and defaults. */
  lemma SecondRunIdleIff(db: Dialect, columns: Columns)
    ensures AllRepairs(db, RepairedAll(db, columns, PRICING_COLUMNS), PRICING_COLUMNS) == [] <==>
            forall column :: column in columns ==> KeepsDefault(db, columns[column], Want(column))
  {
    PricingColumnsAreListed();
    SecondPassOver(db, columns, PRICING_COLUMNS);
  }

  lemma RepairedIffKept(db: Dialect, c: Column, want: Shape, usingText: bool)
    requires Intended(want.sqlType)
    requires want.default.Some? ==> '\'' !in want.default.value
    ensures var r := Repaired(db, c, want, usingText);
            && (Repairs(r, want, usingText) == [] <==> KeepsDefault(db, c, want))
            && (InShape(r, want) <==> KeepsDefault(db, c, want))
  {
    SecondPassIdleIff(db, c, want, usingText);
    IdleIff(Repaired(db, c, want, usingText), want, usingText);
  }

  lemma NoWantHasQuote(column: PricingColumn)
    ensures Want(column).default.Some? ==> '\'' !in Want(column).default.value
  {
  }

  lemma ColumnSettles(db: Dialect, c: Column, once: Columns, column: PricingColumn)
    requires column in once && once[column] == Repaired(db, c, Want(column), UsesText(column))
    ensures RepairsFor(once, column) == [] <==> KeepsDefault(db, c, Want(column))
    ensures InShape(once[column], Want(column)) <==> KeepsDefault(db, c, Want(column))
  {
    NoWantHasQuote(column);
    RepairedIffKept(db, c, Want(column), UsesText(column));
  }

  lemma ColumnAfter(db: Dialect, columns: Columns, wanted: seq<PricingColumn>, column: PricingColumn)
    requires Distinct(wanted) && column in wanted && column in columns
    ensures var once := RepairedAll(db, columns, wanted);
            && column in once
            && (RepairsFor(once, column) == [] <==> KeepsDefault(db, columns[column], Want(column)))
            && (InShape(once[column], Want(column)) <==> KeepsDefault(db, columns[column], Want(column)))
  {
    RepairedAllIs(db, columns, wanted, column);
    ColumnSettles(db, columns[column], RepairedAll(db, columns, wanted), column);
  }

  lemma SecondPassOver(db: Dialect, columns: Columns, wanted: seq<PricingColumn>)
    requires Distinct(wanted) && forall column: PricingColumn :: column in wanted
    ensures AllRepairs(db, RepairedAll(db, columns, wanted), wanted) == [] <==>
            forall column :: column in columns ==> KeepsDefault(db, columns[column], Want(column))
  {
    var once := RepairedAll(db, columns, wanted);
    AllRepairsIdleIff(db, once, wanted);
    if IdleFor(once, wanted) {
      forall column | column in columns ensures KeepsDefault(db, columns[column], Want(column)) {
        ColumnAfter(db, columns, wanted, column);
      }
    }
    if forall column :: column in columns ==> KeepsDefault(db, columns[column], Want(column)) {
      forall column | column in wanted ensures RepairsFor(once, column) == [] {
        RepairedAllIs(db, columns, wanted, column);
        if column in columns { ColumnAfter(db, columns, wanted, column); }
      }
    }
  }

  /** After one run a column that is there has its shape exactly when its default was kept. */
  lemma FirstRunShapesIff(db: Dialect, columns: Columns, column: PricingColumn)
    requires column in columns
    ensures var once := RepairedAll(db, columns, PRICING_COLUMNS);
            && column in once
            && (InShape(once[column], Want(column)) <==> KeepsDefault(db, columns[column], Want(column)))
  {
    PricingColumnsAreListed();
    ColumnAfter(db, columns, PRICING_COLUMNS, column);
  }

  // -- against a database that may refuse -----------------------------------

  class Catalog {
    const db: Dialect
    const accepts: (PricingColumn, Alter) -> bool
    var columns: Columns
    var issued: seq<Alter>

    constructor (db: Dialect, accepts: (PricingColumn, Alter) -> bool, columns: Columns)
      ensures this.db == db && this.accepts == accepts && this.columns == columns && issued == []
    {
      this.db, this.accepts, this.columns, this.issued := db, accepts, columns, [];
    }

    /** `op.alter_column`; a refusal raises. */
    method AlterColumn(column: PricingColumn, alter: Alter) returns (ok: bool)
      requires column in columns
      modifies this`columns, this`issued
      ensures ok == accepts(column, alter)
      ensures issued == old(issued) + [alter]
      ensures columns == if ok then old(columns)[column := Altered(db, old(columns)[column], alter)] else old(columns)
    {
      issued := issued + [alter];
      ok := accepts(column, alter);
      if ok {
        columns := columns[column := Altered(db, columns[column], alter)];
      }
    }

    predicate AllAccepted(column: PricingColumn, alters: seq<Alter>) {
      forall alter :: alter in alters ==> accepts(column, alter)
    }

    lemma AcceptedParts(column: PricingColumn, a: seq<Alter>, b: seq<Alter>, d: seq<Alter>)
      ensures AllAccepted(column, a + b + d) <==>
                AllAccepted(column, a) && AllAccepted(column, b) && AllAccepted(column, d)
    {
    }

    /** One of the three steps: no ALTER, or the one that `current` calls for. */
    method Step(column: PricingColumn, step: seq<Alter>) returns (ok: bool)
      requires column in columns && |step| <= 1
      modifies this`columns, this`issued
      ensures ok <==> AllAccepted(column, step)
      ensures ok ==> columns == old(columns)[column := AlteredBy(db, old(columns)[column], step)]
      ensures issued == old(issued) + step
    {
      ok := true;
      if step != [] {
        assert step == [step[0]];
        ok := AlterColumn(column, step[0]);
      }
    }

    /** `_repair_column_shape`: it reads the column once. */
    method RepairColumnShape(column: PricingColumn) returns (ok: bool)
      modifies this`columns, this`issued
      ensures ok ==> columns == RepairedOne(db, old(columns), column)
      ensures ok ==> issued == old(issued) + RepairsFor(old(columns), column)
      ensures ok <==> AllAccepted(column, RepairsFor(old(columns), column))
    {
      if column !in columns {
        return true;
      }
      var current, want := columns[column], Want(column);
      var a := TypeRepairs(current, want, UsesText(column));
      var b, d := NullabilityRepairs(current, want), DefaultRepairs(current, want);
      ghost var c1 := AlteredBy(db, current, a);
      ghost var c2 := AlteredBy(db, c1, b);
      ghost var c3 := AlteredBy(db, c2, d);
      AlteredByThree(db, current, a, b, d);
      AcceptedParts(column, a, b, d);
      ok := Step(column, a);
      if !ok { return; }
      ok := Step(column, b);
      if !ok { return; }
      Overwrite(old(columns), column, c1, c2);
      ok := Step(column, d);
      Overwrite(old(columns), column, c2, c3);
      Reassociate(old(issued), a, b);
      Reassociate(old(issued), a + b, d);
    }

    method RepairEach(wanted: seq<PricingColumn>) returns (ok: bool)
      modifies this`columns, this`issued
      ensures ok ==> columns == RepairedAll(db, old(columns), wanted)
      ensures ok ==> issued == old(issued) + AllRepairs(db, old(columns), wanted)
    {
      var i := 0;
      while i < |wanted|
        invariant 0 <= i <= |wanted|
        invariant columns == RepairedAll(db, old(columns), wanted[..i])
        invariant issued == old(issued) + AllRepairs(db, old(columns), wanted[..i])
      {
        PassStep(db, old(columns), wanted, i);
        ok := RepairColumnShape(wanted[i]);
        if !ok { return; }
        Reassociate(old(issued), AllRepairs(db, old(columns), wanted[..i]),
                    RepairsFor(RepairedAll(db, old(columns), wanted[..i]), wanted[i]));
        i := i + 1;
      }
      assert wanted[..i] == wanted;
      ok := true;
    }

    /** The loop over the revision's columns. A run after one that went through, with nothing
        changed between, issues nothing, given the database kept the defaults it found. */
    method RepairPass() returns (ok: bool)
      modifies this`columns, this`issued
      ensures ok ==> columns == RepairedAll(db, old(columns), PRICING_COLUMNS)
      ensures ok ==> issued == old(issued) + AllRepairs(db, old(columns), PRICING_COLUMNS)
      ensures ok ==>
        (AllRepairs(db, columns, PRICING_COLUMNS) == [] <==>
         forall column :: column in old(columns) ==> KeepsDefault(db, old(columns)[column], Want(column)))
    {
      SecondRunIdleIff(db, columns);
      ok := RepairEach(PRICING_COLUMNS);
    }
  }
}
