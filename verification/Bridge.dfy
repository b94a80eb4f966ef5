/** Revision 0054: from either physical meaning of revision 0050 to one schema. */
module Bridge {
  import opened Prelude
  import opened EvidenceMerge

  // -- the database ---------------------------------------------------------

  datatype Table = Users | Servers | PaymentSessions | GatewaySettings | OtherTable(name: string)

  datatype Column =
    | PhoneNumber | PhoneVerifiedAt | NationalId | BillingStartedAt
    | PaymentDetails | RedirectUrlColumn | TrackingCodeColumn
    | SettingsKey | Enabled | UpdatedBy | CreatedAt | UpdatedAt
    | OtherColumn(name: string)

  datatype Type = Varchar(length: nat) | TextType | TimestampTz | Jsonb | Boolean | Uuid | OtherType(name: string)

  datatype Definition = Definition(sqlType: Type, nullable: bool, hasDefault: bool)

  /** The tables there are, and the columns, each with its table. */
  datatype Schema = Schema(tables: set<Table>, columns: map<(Table, Column), Definition>)

  /** `uq_atlaspay_merchant_ref`, its staging name `uq_atlaspay_intent`, and
      `uq_payment_sessions_gateway_idempotency`. */
  datatype IndexName = MerchantRef | Intent | GatewayIdempotency | OtherIndex(name: string)

  /** A unique index on (gateway_key, idempotency_key), of all rows or of atlaspay's. */
  datatype Index = UniqueAll | UniqueAtlaspay | Different(definition: string)

  datatype Server = Server(
    billingModel: string, providerServerId: Option<string>, state: string,
    createdAt: Option<int>, billingStartedAt: Option<int>)

  datatype Db = Db(schema: Schema, servers: seq<Server>, payments: seq<Payment>, indexes: map<IndexName, Index>)

  /** Two rows a unique index cannot hold together; NULLs are distinct. */
  predicate Clash(p: Payment, q: Payment, index: Index) {
    && p.gatewayKey.Some? && p.idempotencyKey.Some?
    && p.gatewayKey == q.gatewayKey && p.idempotencyKey == q.idempotencyKey
    && (index == UniqueAll || (index == UniqueAtlaspay && p.gatewayKey == Some("atlaspay")))
  }

  /** For which rows an index is in the way, index by index. */
  lemma ClashIff(p: Payment, q: Payment)
    ensures Clash(p, q, UniqueAll) <==>
              exists g, k :: p.gatewayKey == Some(g) && q.gatewayKey == Some(g) &&
                             p.idempotencyKey == Some(k) && q.idempotencyKey == Some(k)
    ensures Clash(p, q, UniqueAtlaspay) <==>
              exists k :: p.gatewayKey == Some("atlaspay") && q.gatewayKey == Some("atlaspay") &&
                          p.idempotencyKey == Some(k) && q.idempotencyKey == Some(k)
    ensures forall other :: !Clash(p, q, Different(other))
  {
  }

  predicate Holds(payments: seq<Payment>, index: Index) {
    forall i, j :: 0 <= i < j < |payments| ==> !Clash(payments[i], payments[j], index)
  }

  // -- the columns required -------------------------------------------------

  const NULLABLE_TZ := Definition(TimestampTz, true, false)

  const REQUIRED: map<(Table, Column), Definition> := map[
    (Users, PhoneNumber) := Definition(Varchar(16), true, false),
    (Users, PhoneVerifiedAt) := NULLABLE_TZ,
    (Users, NationalId) := Definition(Varchar(10), true, false),
    (Servers, BillingStartedAt) := NULLABLE_TZ,
    (PaymentSessions, PaymentDetails) := Definition(Jsonb, true, false),
    (PaymentSessions, RedirectUrlColumn) := Definition(TextType, true, false),
    (PaymentSessions, TrackingCodeColumn) := Definition(TextType, true, false)]

  const SETTINGS: map<(Table, Column), Definition> := map[
    (GatewaySettings, SettingsKey) := Definition(Varchar(32), false, false),
    (GatewaySettings, Enabled) := Definition(Boolean, false, false),
    (GatewaySettings, UpdatedBy) := Definition(Uuid, true, false),
    (GatewaySettings, CreatedAt) := Definition(TimestampTz, false, true),
    (GatewaySettings, UpdatedAt) := Definition(TimestampTz, false, true)]

  /** What a column of a required name, and an index of one of the names, is taken to be; and
      a table that is not there has no columns. */
  ghost predicate NamesMeanOneThing(db: Db) {
    && (forall x :: x in db.schema.columns && x in REQUIRED ==> db.schema.columns[x] == REQUIRED[x])
    && (forall x :: x in db.schema.columns ==> x.0 in db.schema.tables)
    && (MerchantRef in db.indexes ==> db.indexes[MerchantRef] == UniqueAtlaspay)
    && (Intent in db.indexes ==> db.indexes[Intent] == UniqueAtlaspay)
    && (GatewayIdempotency in db.indexes ==> db.indexes[GatewayIdempotency] == UniqueAll)
  }

  /** A column the table does not have holds nothing, and a unique index has no clashes. */
  ghost predicate Coherent(db: Db) {
    && NamesMeanOneThing(db)
    && IndexesHold(db.payments, db.indexes)
    && ((Servers, BillingStartedAt) !in db.schema.columns ==>
          forall i :: 0 <= i < |db.servers| ==> db.servers[i].billingStartedAt == None)
    && (forall i :: 0 <= i < |db.payments| ==> Unstored(db.schema, db.payments[i]))
  }

  predicate Unstored(schema: Schema, p: Payment) {
    && ((PaymentSessions, PaymentDetails) !in schema.columns ==> p.details == None)
    && ((PaymentSessions, RedirectUrlColumn) !in schema.columns ==> p.redirectUrl == None)
    && ((PaymentSessions, TrackingCodeColumn) !in schema.columns ==> p.trackingCode == None)
  }

  // -- what the revision does to it -----------------------------------------

  /** The historical billing anchor: the creation time of an hourly server that was provisioned. */
  function Anchored(s: Server): Server {
    if s.billingModel == "hourly" && s.providerServerId.Some? && s.state !in ["requested", "provisioning"]
    then s.(billingStartedAt := s.createdAt)
    else s
  }

  function AnchoredAll(servers: seq<Server>): seq<Server> {
    seq(|servers|, i requires 0 <= i < |servers| => Anchored(servers[i]))
  }

  predicate HasTables(schema: Schema) {
    Users in schema.tables && Servers in schema.tables && PaymentSessions in schema.tables
  }

  /** The missing columns of the seven, the others as they are, and the settings table. */
  function BridgedSchema(schema: Schema): Schema {
    var columns := REQUIRED + schema.columns;
    if GatewaySettings in schema.tables then Schema(schema.tables, columns)
    else Schema(schema.tables + {GatewaySettings}, columns + SETTINGS)
  }

  function BridgedIndexes(indexes: map<IndexName, Index>): map<IndexName, Index> {
    var renamed :=
      if MerchantRef in indexes then indexes
      else if Intent in indexes then (indexes - {Intent})[MerchantRef := indexes[Intent]]
      else indexes[MerchantRef := UniqueAtlaspay];
    if GatewayIdempotency in indexes then renamed else renamed[GatewayIdempotency := UniqueAll]
  }

  predicate NoneConflicts(payments: seq<Payment>) {
    forall i :: 0 <= i < |payments| ==> !Conflicting(payments[i])
  }

  function MergedAll(payments: seq<Payment>): seq<Payment>
    requires NoneConflicts(payments)
  {
    seq(|payments|, i requires 0 <= i < |payments| => Merge(payments[i]))
  }

  /** The databases the revision can be applied to. */
  predicate Admissible(dialect: string, db: Db) {
    && dialect == "postgresql"
    && HasTables(db.schema)
    && NoneConflicts(db.payments)
    && Holds(db.payments, UniqueAll)
  }

  /** What it makes of one. */
  function Bridged(db: Db): Db
    requires HasTables(db.schema) && NoneConflicts(db.payments)
  {
    Db(BridgedSchema(db.schema),
       if (Servers, BillingStartedAt) in db.schema.columns then db.servers else AnchoredAll(db.servers),
       MergedAll(db.payments),
       BridgedIndexes(db.indexes))
  }

  // -- the schema it leaves -------------------------------------------------

  /** The three tables' required columns, the settings table and the two canonical indexes. */
  ghost predicate HasCanonicalShape(db: Db) {
    && HasTables(db.schema) && GatewaySettings in db.schema.tables
    && (forall x :: x in REQUIRED ==> x in db.schema.columns && db.schema.columns[x] == REQUIRED[x])
    && MerchantRef in db.indexes && db.indexes[MerchantRef] == UniqueAtlaspay
    && GatewayIdempotency in db.indexes && db.indexes[GatewayIdempotency] == UniqueAll
  }

  lemma NoSettingsRequired(x: (Table, Column))
    ensures x in REQUIRED ==> x.0 in {Users, Servers, PaymentSessions} && x !in SETTINGS
    ensures x in SETTINGS ==> x.0 == GatewaySettings
  {
  }

  /** From any coherent start the bridge ends in the one canonical shape. */
  lemma BridgedIsCanonical(db: Db)
    requires Coherent(db) && HasTables(db.schema) && NoneConflicts(db.payments)
    ensures HasCanonicalShape(Bridged(db))
  {
    forall x | x in REQUIRED
      ensures x in BridgedSchema(db.schema).columns && BridgedSchema(db.schema).columns[x] == REQUIRED[x]
    {
      NoSettingsRequired(x);
    }
  }

  lemma MergedPaymentsKeepKeys(payments: seq<Payment>)
    requires NoneConflicts(payments)
    ensures NoneConflicts(MergedAll(payments))
    ensures forall index: Index :: Holds(MergedAll(payments), index) <==> Holds(payments, index)
    ensures MergedAll(MergedAll(payments)) == MergedAll(payments)
  {
    var merged := MergedAll(payments);
    forall i | 0 <= i < |payments|
      ensures merged[i].gatewayKey == payments[i].gatewayKey && merged[i].idempotencyKey == payments[i].idempotencyKey
      ensures !Conflicting(merged[i]) && Merge(merged[i]) == merged[i]
    {
      MergeCompletes(payments[i]);
      MergeIsIdempotent(payments[i]);
    }
    forall index: Index ensures Holds(merged, index) <==> Holds(payments, index) {
      if Holds(payments, index) { SameKeysSameClashes(payments, merged, index); }
      if Holds(merged, index) { SameKeysSameClashes(merged, payments, index); }
    }
  }

  ghost predicate AllAgree(payments: seq<Payment>) {
    forall i, pair: Pair :: 0 <= i < |payments| ==> Agrees(payments[i], pair)
  }

  lemma MergedPaymentsAgree(payments: seq<Payment>)
    requires NoneConflicts(payments)
    ensures AllAgree(MergedAll(payments))
  {
    forall i, pair: Pair | 0 <= i < |payments| ensures Agrees(Merge(payments[i]), pair) {
      MergeAgreesIff(payments[i]);
    }
  }

  lemma SameKeysSameClashes(a: seq<Payment>, b: seq<Payment>, index: Index)
    requires |a| == |b| && Holds(a, index)
    requires forall i :: 0 <= i < |a| ==>
               a[i].gatewayKey == b[i].gatewayKey && a[i].idempotencyKey == b[i].idempotencyKey
    ensures Holds(b, index)
  {
    forall i, j | 0 <= i < j < |b| ensures !Clash(b[i], b[j], index) {
      assert !Clash(a[i], a[j], index);
    }
  }

  /** The bridge can be applied to what it made, and changes nothing of it: not a row, not a
      column, not an index. */
  lemma BridgedIsFixed(dialect: string, db: Db)
    requires Coherent(db) && Admissible(dialect, db)
    ensures Admissible(dialect, Bridged(db))
    ensures Bridged(Bridged(db)) == Bridged(db)
  {
    BridgedIsCanonical(db);
    MergedPaymentsKeepKeys(db.payments);
    var once := Bridged(db);
    assert REQUIRED + once.schema.columns == once.schema.columns;
    assert (Servers, BillingStartedAt) in once.schema.columns;
  }

  // -- field by field ---------------------------------------------------------

  /** What becomes of a server's row. Where the column was there, nothing; else a server ends with
      an anchor exactly when it is hourly, has a provider's id, is past its two early states and
      has a creation time, and that time is the anchor. */
  predicate AnchoredAsDue(had: bool, before: Server, after: Server) {
    && after.billingModel == before.billingModel && after.providerServerId == before.providerServerId
    && after.state == before.state && after.createdAt == before.createdAt
    && if had then after.billingStartedAt == before.billingStartedAt
       else
         && (after.billingStartedAt.Some? <==>
               before.billingModel == "hourly" && before.providerServerId.Some? && before.state != "requested" &&
               before.state != "provisioning" && before.createdAt.Some?)
         && (after.billingStartedAt.Some? ==> after.billingStartedAt == before.createdAt)
  }

  lemma ServersAreAnchored(db: Db)
    requires Coherent(db) && HasTables(db.schema) && NoneConflicts(db.payments)
    ensures |Bridged(db).servers| == |db.servers|
    ensures forall i :: 0 <= i < |db.servers| ==>
              AnchoredAsDue((Servers, BillingStartedAt) in db.schema.columns, db.servers[i], Bridged(db).servers[i])
  {
  }

  /** The columns the bridge may add, with their types; all of the first seven are nullable. */
  predicate MayBeAdded(x: (Table, Column), d: Definition) {
    || (d.nullable && !d.hasDefault && (
          || (x == (Users, PhoneNumber) && d.sqlType == Varchar(16))
          || (x == (Users, PhoneVerifiedAt) && d.sqlType == TimestampTz)
          || (x == (Users, NationalId) && d.sqlType == Varchar(10))
          || (x == (Servers, BillingStartedAt) && d.sqlType == TimestampTz)
          || (x == (PaymentSessions, PaymentDetails) && d.sqlType == Jsonb)
          || (x == (PaymentSessions, RedirectUrlColumn) && d.sqlType == TextType)
          || (x == (PaymentSessions, TrackingCodeColumn) && d.sqlType == TextType)))
    || (x == (GatewaySettings, SettingsKey) && d == Definition(Varchar(32), false, false))
    || (x == (GatewaySettings, Enabled) && d == Definition(Boolean, false, false))
    || (x == (GatewaySettings, UpdatedBy) && d == Definition(Uuid, true, false))
    || (x == (GatewaySettings, CreatedAt) && d == Definition(TimestampTz, false, true))
    || (x == (GatewaySettings, UpdatedAt) && d == Definition(TimestampTz, false, true))
  }

  /** Every table, column and index there was is kept as it was, but for the one index that is
      renamed; and what is new is the settings table, the columns listed, and the two indexes. */
  lemma NothingElseChanges(db: Db)
    requires Coherent(db) && HasTables(db.schema) && NoneConflicts(db.payments)
    ensures Bridged(db).schema.tables == db.schema.tables + {GatewaySettings}
    ensures forall x :: x in db.schema.columns ==>
              x in Bridged(db).schema.columns && Bridged(db).schema.columns[x] == db.schema.columns[x]
    ensures forall x :: x in Bridged(db).schema.columns && x !in db.schema.columns ==>
              MayBeAdded(x, Bridged(db).schema.columns[x])
    ensures GatewaySettings !in db.schema.tables ==>
              forall c :: c in {SettingsKey, Enabled, UpdatedBy, CreatedAt, UpdatedAt} ==>
                (GatewaySettings, c) in Bridged(db).schema.columns
    ensures forall name :: name in db.indexes && name != Intent ==>
              name in Bridged(db).indexes && Bridged(db).indexes[name] == db.indexes[name]
    ensures Intent in Bridged(db).indexes <==> Intent in db.indexes && MerchantRef in db.indexes
    ensures forall name :: name in Bridged(db).indexes ==>
              name in db.indexes || name == MerchantRef || name == GatewayIdempotency
  {
    ColumnsAreKept(db);
    ColumnsAreListed(db.schema);
  }

  lemma ColumnsAreKept(db: Db)
    requires Coherent(db) && HasTables(db.schema)
    ensures forall x :: x in db.schema.columns ==>
              x in BridgedSchema(db.schema).columns && BridgedSchema(db.schema).columns[x] == db.schema.columns[x]
  {
    forall x | x in db.schema.columns && GatewaySettings !in db.schema.tables ensures x !in SETTINGS {
      NoSettingsRequired(x);
    }
  }

  lemma ColumnsAreListed(schema: Schema)
    ensures forall x :: x in BridgedSchema(schema).columns && x !in schema.columns ==>
              MayBeAdded(x, BridgedSchema(schema).columns[x])
    ensures GatewaySettings !in schema.tables ==>
              forall c :: c in {SettingsKey, Enabled, UpdatedBy, CreatedAt, UpdatedAt} ==>
                (GatewaySettings, c) in BridgedSchema(schema).columns
  {
    forall x | x in REQUIRED ensures MayBeAdded(x, REQUIRED[x]) && x !in SETTINGS {
      NoSettingsRequired(x);
    }
    forall x | x in SETTINGS ensures MayBeAdded(x, SETTINGS[x]) {
    }
    assert (GatewaySettings, SettingsKey) in SETTINGS && (GatewaySettings, Enabled) in SETTINGS;
    assert (GatewaySettings, UpdatedBy) in SETTINGS && (GatewaySettings, CreatedAt) in SETTINGS;
    assert (GatewaySettings, UpdatedAt) in SETTINGS;
  }

  /** A second application would leave it alone. */
  ghost predicate Settled(db: Db) {
    HasTables(db.schema) && NoneConflicts(db.payments) && Bridged(db) == db
  }

  lemma BridgedColumnsHaveTables(schema: Schema)
    requires HasTables(schema) && forall x :: x in schema.columns ==> x.0 in schema.tables
    ensures forall x :: x in BridgedSchema(schema).columns ==> x.0 in BridgedSchema(schema).tables
  {
    forall x | x in BridgedSchema(schema).columns ensures x.0 in BridgedSchema(schema).tables {
      NoSettingsRequired(x);
    }
  }

  /** All columns are there, so no row holds what its table does not. */
  lemma CanonicalIsStored(db: Db)
    requires HasCanonicalShape(db)
    ensures (Servers, BillingStartedAt) in db.schema.columns
    ensures forall p: Payment :: Unstored(db.schema, p)
  {
    assert (Servers, BillingStartedAt) in REQUIRED && (PaymentSessions, PaymentDetails) in REQUIRED;
    assert (PaymentSessions, RedirectUrlColumn) in REQUIRED && (PaymentSessions, TrackingCodeColumn) in REQUIRED;
  }

  /** The bridge leaves a coherent database: no unique index over clashing rows. */
  lemma BridgedIsCoherent(dialect: string, db: Db)
    requires Coherent(db) && Admissible(dialect, db)
    ensures Coherent(Bridged(db))
  {
    BridgedIsCanonical(db);
    BridgedIndexesHold(db.payments, db.indexes);
    BridgedColumnsHaveTables(db.schema);
    CanonicalIsStored(Bridged(db));
    BridgedMeansOneThing(db);
  }

  lemma BridgedMeansOneThing(db: Db)
    requires Coherent(db) && HasTables(db.schema) && NoneConflicts(db.payments) && HasCanonicalShape(Bridged(db))
    ensures NamesMeanOneThing(Bridged(db))
  {
    BridgedColumnsHaveTables(db.schema);
  }

  ghost predicate IndexesHold(payments: seq<Payment>, indexes: map<IndexName, Index>) {
    forall name: IndexName :: name in indexes ==> Holds(payments, indexes[name])
  }

  lemma BridgedIndexesHold(payments: seq<Payment>, indexes: map<IndexName, Index>)
    requires IndexesHold(payments, indexes) && NoneConflicts(payments) && Holds(payments, UniqueAll)
    ensures IndexesHold(MergedAll(payments), BridgedIndexes(indexes))
  {
    MergedPaymentsKeepKeys(payments);
    AllImpliesAtlaspay(payments);
    forall name: IndexName | name in BridgedIndexes(indexes)
      ensures Holds(MergedAll(payments), BridgedIndexes(indexes)[name])
    {
      var index := BridgedIndexes(indexes)[name];
      assert index == UniqueAll || index == UniqueAtlaspay || (name in indexes && index == indexes[name])
        || (Intent in indexes && index == indexes[Intent]);
      assert Holds(payments, index);
    }
  }

  lemma AllImpliesAtlaspay(payments: seq<Payment>)
    requires Holds(payments, UniqueAll)
    ensures Holds(payments, UniqueAtlaspay)
  {
    forall i, j | 0 <= i < j < |payments| ensures !Clash(payments[i], payments[j], UniqueAtlaspay) {
      assert !Clash(payments[i], payments[j], UniqueAll);
    }
  }

  // -- the two meanings of 0050 ---------------------------------------------

  /** A database before either 0050: none of the columns, the table or the indexes. */
  ghost predicate Before0050(db: Db) {
    && HasTables(db.schema) && GatewaySettings !in db.schema.tables
    && (forall x :: x in db.schema.columns ==> x !in REQUIRED && x.0 in db.schema.tables)
    && MerchantRef !in db.indexes && Intent !in db.indexes && GatewayIdempotency !in db.indexes
    && (forall i :: 0 <= i < |db.payments| ==> Unstored(db.schema, db.payments[i]))
  }

  function Adding(schema: Schema, wanted: set<(Table, Column)>): Schema
    requires wanted <= REQUIRED.Keys
  {
    schema.(columns := schema.columns + map x | x in wanted :: REQUIRED[x])
  }

  const STAGING_COLUMNS := {(PaymentSessions, RedirectUrlColumn), (PaymentSessions, TrackingCodeColumn)}

  const MAIN_COLUMNS := {(Users, PhoneNumber), (Users, PhoneVerifiedAt), (Users, NationalId),
                         (Servers, BillingStartedAt), (PaymentSessions, PaymentDetails)}

  /** The columns with the ones already seen to by the bridge. */
  function WithAdded(columns: map<(Table, Column), Definition>, done: set<(Table, Column)>)
    : map<(Table, Column), Definition>
    requires done <= REQUIRED.Keys
  {
    (map x | x in done :: REQUIRED[x]) + columns
  }

  function WithOne(columns: map<(Table, Column), Definition>, x: (Table, Column)): map<(Table, Column), Definition>
    requires x in REQUIRED
  {
    map[x := REQUIRED[x]] + columns
  }

  lemma ThreeAdded(columns: map<(Table, Column), Definition>, x: (Table, Column), y: (Table, Column),
                   z: (Table, Column))
    requires x in REQUIRED && y in REQUIRED && z in REQUIRED
    ensures WithOne(WithOne(WithOne(columns, x), y), z) == WithAdded(columns, {x, y, z})
  {
  }

  lemma OneMoreAdded(columns: map<(Table, Column), Definition>, done: set<(Table, Column)>, x: (Table, Column))
    requires done <= REQUIRED.Keys && x in REQUIRED
    ensures WithOne(WithAdded(columns, done), x) == WithAdded(columns, done + {x})
    ensures x in WithAdded(columns, done) <==> x in done || x in columns
  {
  }

  const USER_COLUMNS := {(Users, PhoneNumber), (Users, PhoneVerifiedAt), (Users, NationalId)}

  const PAYMENT_COLUMNS :=
    {(PaymentSessions, PaymentDetails), (PaymentSessions, RedirectUrlColumn), (PaymentSessions, TrackingCodeColumn)}

  lemma AllAdded(columns: map<(Table, Column), Definition>)
    ensures WithAdded(WithAdded(columns, USER_COLUMNS + {(Servers, BillingStartedAt)}), PAYMENT_COLUMNS) ==
              REQUIRED + columns
  {
    assert REQUIRED.Keys == USER_COLUMNS + {(Servers, BillingStartedAt)} + PAYMENT_COLUMNS;
  }

  /** The staging release's 0050: two columns on the payment, the index under its first name. */
  function Staging0050(db: Db): Db {
    db.(schema := Adding(db.schema, STAGING_COLUMNS), indexes := db.indexes[Intent := UniqueAtlaspay])
  }

  /** The main release's: identity, billing anchor, JSON details, settings and the final name. */
  function Main0050(db: Db): Db {
    var columns := Adding(db.schema, MAIN_COLUMNS).columns;
    db.(schema := Schema(db.schema.tables + {GatewaySettings}, columns + SETTINGS),
        servers := AnchoredAll(db.servers),
        indexes := db.indexes[MerchantRef := UniqueAtlaspay])
  }

  lemma PartsMeet<K, V>(base: map<K, V>, all: map<K, V>, one: map<K, V>, two: map<K, V>, extra: map<K, V>)
    requires forall x :: x in one ==> x in all && one[x] == all[x]
    requires forall x :: x in two ==> x in all && two[x] == all[x]
    requires forall x :: x in base || x in extra ==> x !in all
    ensures all + (base + one) + extra == all + (base + two + extra)
  {
  }

  lemma SameSchema(base: Db)
    requires Before0050(base)
    ensures BridgedSchema(Staging0050(base).schema) == BridgedSchema(Main0050(base).schema)
  {
    forall x | x in SETTINGS ensures x !in REQUIRED {
      NoSettingsRequired(x);
    }
    var one := map x | x in STAGING_COLUMNS :: REQUIRED[x];
    var two := map x | x in MAIN_COLUMNS :: REQUIRED[x];
    PartsMeet(base.schema.columns, REQUIRED, one, two, SETTINGS);
    assert Staging0050(base).schema == Schema(base.schema.tables, base.schema.columns + one);
    assert Main0050(base).schema == Schema(base.schema.tables + {GatewaySettings},
                                           base.schema.columns + two + SETTINGS);
  }

  lemma SameIndexes(indexes: map<IndexName, Index>)
    requires MerchantRef !in indexes && Intent !in indexes && GatewayIdempotency !in indexes
    ensures BridgedIndexes(indexes[Intent := UniqueAtlaspay]) == BridgedIndexes(indexes[MerchantRef := UniqueAtlaspay])
  {
    assert indexes[Intent := UniqueAtlaspay] - {Intent} == indexes;
  }

  /** Whichever 0050 a database went through, the bridge makes the same database of it: schema,
      indexes, rows and billing anchors. */
  lemma BothFlavoursMeet(base: Db)
    requires Before0050(base)
    ensures NoneConflicts(Staging0050(base).payments) && NoneConflicts(Main0050(base).payments)
    ensures HasTables(Staging0050(base).schema) && HasTables(Main0050(base).schema)
    ensures Bridged(Staging0050(base)) == Bridged(Main0050(base))
  {
    SameSchema(base);
    SameIndexes(base.indexes);
    NothingStored(base);
    SameServers(base);
  }

  lemma NothingStored(base: Db)
    requires Before0050(base)
    ensures NoneConflicts(base.payments)
  {
    assert (PaymentSessions, PaymentDetails) in REQUIRED && (PaymentSessions, RedirectUrlColumn) in REQUIRED
        && (PaymentSessions, TrackingCodeColumn) in REQUIRED;
    forall i | 0 <= i < |base.payments| ensures !Conflicting(base.payments[i]) {
      assert Unstored(base.schema, base.payments[i]);
    }
  }

  lemma SameServers(base: Db)
    requires Before0050(base)
    ensures (Servers, BillingStartedAt) !in Staging0050(base).schema.columns
    ensures (Servers, BillingStartedAt) in Main0050(base).schema.columns
  {
    assert (Servers, BillingStartedAt) in REQUIRED && (Servers, BillingStartedAt) in MAIN_COLUMNS;
    NoSettingsRequired((Servers, BillingStartedAt));
  }

  // -- the revision, step by step -------------------------------------------

  datatype Failure = NotPostgres | NoSuchTable | ConflictingEvidence | DuplicateKeys

  /** Which step, if any, stops the revision. */
  function FailureOf(dialect: string, db: Db): Option<Failure> {
    if dialect != "postgresql" then Some(NotPostgres)
    else if !HasTables(db.schema) then Some(NoSuchTable)
    else if !NoneConflicts(db.payments) then Some(ConflictingEvidence)
    else if MerchantRef !in db.indexes && Intent !in db.indexes && !Holds(db.payments, UniqueAtlaspay)
         then Some(DuplicateKeys)
    else if GatewayIdempotency !in db.indexes && !Holds(db.payments, UniqueAll) then Some(DuplicateKeys)
    else None
  }

  /** It goes through exactly for PostgreSQL, the three tables, no conflicting evidence and no two
      rows with one gateway and key: whichever indexes were there before. */
  lemma SucceedsIff(dialect: string, db: Db)
    requires Coherent(db)
    ensures FailureOf(dialect, db).None? <==> Admissible(dialect, db)
  {
    if Holds(db.payments, UniqueAll) { AllImpliesAtlaspay(db.payments); }
  }

  class Database {
    const dialect: string
    var tables: set<Table>
    var columns: map<(Table, Column), Definition>
    var servers: seq<Server>
    var payments: seq<Payment>
    var indexes: map<IndexName, Index>

    function State(): Db
      reads this
    {
      Db(Schema(tables, columns), servers, payments, indexes)
    }

    constructor (dialect: string, db: Db)
      ensures this.dialect == dialect && State() == db
    {
      this.dialect := dialect;
      tables, columns := db.schema.tables, db.schema.columns;
      servers, payments, indexes := db.servers, db.payments, db.indexes;
    }

    /** `_add_missing`: whether the column had to be added. */
    method AddMissing(table: Table, column: Column) returns (added: bool)
      requires (table, column) in REQUIRED && table in tables
      modifies this`columns
      ensures added <==> (table, column) !in old(columns)
      ensures columns == WithOne(old(columns), (table, column))
    {
      if (table, column) in columns {
        return false;
      }
      columns := columns[(table, column) := REQUIRED[(table, column)]];
      added := true;
    }

    method AnchorBilling()
      modifies this`servers
      ensures servers == AnchoredAll(old(servers))
    {
      var i := 0;
      while i < |servers|
        invariant 0 <= i <= |servers| == |old(servers)|
        invariant forall k :: 0 <= k < i ==> servers[k] == Anchored(old(servers[k]))
        invariant forall k :: i <= k < |servers| ==> servers[k] == old(servers[k])
      {
        servers := servers[i := Anchored(servers[i])];
        i := i + 1;
      }
    }

    method SelectConflict() returns (conflict: bool)
      ensures conflict <==> !NoneConflicts(payments)
    {
      conflict := exists i :: 0 <= i < |payments| && Conflicting(payments[i]);
    }

    method UpdateDetails(pair: Pair)
      requires forall i :: 0 <= i < |payments| ==> payments[i].details != Some(NotAnObject)
      modifies this`payments
      ensures |payments| == |old(payments)|
      ensures forall i :: 0 <= i < |payments| ==> payments[i] == ToDetails(old(payments[i]), pair)
    {
      var i := 0;
      while i < |payments|
        invariant 0 <= i <= |payments| == |old(payments)|
        invariant forall k :: 0 <= k < i ==> payments[k] == ToDetails(old(payments[k]), pair)
        invariant forall k :: i <= k < |payments| ==> payments[k] == old(payments[k])
      {
        payments := payments[i := ToDetails(payments[i], pair)];
        i := i + 1;
      }
    }

    method UpdateColumn(pair: Pair)
      modifies this`payments
      ensures |payments| == |old(payments)|
      ensures forall i :: 0 <= i < |payments| ==> payments[i] == ToColumn(old(payments[i]), pair)
    {
      var i := 0;
      while i < |payments|
        invariant 0 <= i <= |payments| == |old(payments)|
        invariant forall k :: 0 <= k < i ==> payments[k] == ToColumn(old(payments[k]), pair)
        invariant forall k :: i <= k < |payments| ==> payments[k] == old(payments[k])
      {
        payments := payments[i := ToColumn(payments[i], pair)];
        i := i + 1;
      }
    }

    /** The loop over the two pairs: each is one pass to the details, then one to the column,
        over all rows. */
    method MergeEvidence()
      requires NoneConflicts(payments)
      modifies this`payments
      ensures NoneConflicts(old(payments)) && payments == MergedAll(old(payments))
    {
      ghost var before := payments;
      UpdateDetails(RedirectUrl);
      UpdateColumn(RedirectUrl);
      assert forall i :: 0 <= i < |before| ==> payments[i] == MergePair(before[i], RedirectUrl);
      UpdateDetails(TrackingCode);
      UpdateColumn(TrackingCode);
      assert forall i :: 0 <= i < |before| ==> payments[i] == Merge(before[i]);
    }

    method AddUserColumns()
      requires Users in tables
      modifies this`columns
      ensures columns == WithAdded(old(columns), USER_COLUMNS)
    {
      ThreeAdded(columns, (Users, PhoneNumber), (Users, PhoneVerifiedAt), (Users, NationalId));
      var added := AddMissing(Users, PhoneNumber);
      added := AddMissing(Users, PhoneVerifiedAt);
      added := AddMissing(Users, NationalId);
    }

    method AddPaymentColumns()
      requires PaymentSessions in tables
      modifies this`columns
      ensures columns == WithAdded(old(columns), PAYMENT_COLUMNS)
    {
      ThreeAdded(columns, (PaymentSessions, PaymentDetails), (PaymentSessions, RedirectUrlColumn),
                 (PaymentSessions, TrackingCodeColumn));
      var added := AddMissing(PaymentSessions, PaymentDetails);
      added := AddMissing(PaymentSessions, RedirectUrlColumn);
      added := AddMissing(PaymentSessions, TrackingCodeColumn);
    }

    method AddColumns()
      requires HasTables(State().schema)
      modifies this`columns, this`servers
      ensures columns == REQUIRED + old(columns)
      ensures servers == if (Servers, BillingStartedAt) in old(columns) then old(servers) else AnchoredAll(old(servers))
    {
      ghost var before := columns;
      AddUserColumns();
      OneMoreAdded(before, USER_COLUMNS, (Servers, BillingStartedAt));
      var added := AddMissing(Servers, BillingStartedAt);
      if added {
        AnchorBilling();
      }
      AddPaymentColumns();
      AllAdded(before);
    }

    /** `op.create_index(..., unique=True)`: refused over rows that clash. */
    method CreateIndex(name: IndexName, index: Index) returns (failure: Option<Failure>)
      modifies this`indexes
      ensures failure == if Holds(payments, index) then None else Some(DuplicateKeys)
      ensures indexes == if Holds(payments, index) then old(indexes)[name := index] else old(indexes)
    {
      if !Holds(payments, index) {
        return Some(DuplicateKeys);
      }
      indexes := indexes[name := index];
      failure := None;
    }

    method MakeIndexes() returns (failure: Option<Failure>)
      modifies this`indexes
      ensures failure.None? ==> indexes == BridgedIndexes(old(indexes))
      ensures failure.None? <==>
        && (MerchantRef in old(indexes) || Intent in old(indexes) || Holds(payments, UniqueAtlaspay))
        && (GatewayIdempotency in old(indexes) || Holds(payments, UniqueAll))
      ensures failure.None? || failure == Some(DuplicateKeys)
    {
      var names := indexes.Keys;
      if MerchantRef !in names && Intent in names {
        indexes := (indexes - {Intent})[MerchantRef := indexes[Intent]];
      } else if MerchantRef !in names {
        failure := CreateIndex(MerchantRef, UniqueAtlaspay);
        if failure.Some? {
          return;
        }
      }
      if GatewayIdempotency !in names {
        failure := CreateIndex(GatewayIdempotency, UniqueAll);
        return;
      }
      failure := None;
    }

    /** `upgrade`. A failure may come after some of the steps. */
    method Upgrade() returns (failure: Option<Failure>)
      modifies this`tables, this`columns, this`servers, this`payments, this`indexes
      ensures failure == FailureOf(dialect, old(State()))
      ensures failure.None? ==> State() == Bridged(old(State()))
    {
      if dialect != "postgresql" {
        return Some(NotPostgres);
      }
      if !HasTables(State().schema) {
        return Some(NoSuchTable);
      }
      AddColumns();
      if GatewaySettings !in tables {
        tables := tables + {GatewaySettings};
        columns := columns + SETTINGS;
      }
      var conflict := SelectConflict();
      if conflict {
        return Some(ConflictingEvidence);
      }
      MergeEvidence();
      MergedPaymentsKeepKeys(old(payments));
      failure := MakeIndexes();
    }

    /** The revision in its transaction: it either makes the bridged database, whose pairs agree
        and which a second application would leave alone, or changes nothing. */
    method Migrate() returns (failure: Option<Failure>)
      requires Coherent(State())
      modifies this`tables, this`columns, this`servers, this`payments, this`indexes
      ensures Coherent(State())
      ensures failure.None? <==> Admissible(dialect, old(State()))
      ensures failure.None? ==> HasCanonicalShape(State()) && State() == Bridged(old(State())) && Settled(State())
      ensures failure.None? ==> AllAgree(payments)
      ensures failure.None? ==>
                && |servers| == |old(servers)|
                && forall i :: 0 <= i < |servers| ==>
                     AnchoredAsDue((Servers, BillingStartedAt) in old(columns), old(servers)[i], servers[i])
      ensures failure.Some? ==> State() == old(State())
    {
      SucceedsIff(dialect, State());
      var tables0, columns0, servers0, payments0, indexes0 := tables, columns, servers, payments, indexes;
      failure := Upgrade();
      if failure.Some? {
        tables, columns, servers, payments, indexes := tables0, columns0, servers0, payments0, indexes0;
      } else {
        BridgedIsCanonical(old(State()));
        BridgedIsFixed(dialect, old(State()));
        BridgedIsCoherent(dialect, old(State()));
        MergedPaymentsAgree(old(payments));
        ServersAreAnchored(old(State()));
      }
    }
  }
}
