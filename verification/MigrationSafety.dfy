/** What an `upgrade()` may do to the schema, what an old client needs from it, and what a
    clean gate report is worth. */
module MigrationSafety {
  import opened Prelude
  import opened PythonAst
  import opened MigrationGate

  // -- schemas and old clients --------------------------------------------

  datatype Column = Column(nullable: bool, hasDefault: bool)

  type Schema = map<string, map<string, Column>>

  /** An INSERT of non-null values into the listed columns. */
  datatype Insert = Insert(table: string, columns: set<string>)

  datatype Client = Client(queries: set<(string, string)>, inserts: set<Insert>)

  predicate Optional(c: Column) {
    c.nullable || c.hasDefault
  }

  ghost predicate ReadWorks(read: (string, string), s: Schema) {
    read.0 in s && read.1 in s[read.0]
  }

  ghost predicate InsertWorks(insert: Insert, s: Schema) {
    && insert.table in s
    && insert.columns <= s[insert.table].Keys
    && forall c :: c in s[insert.table] && c !in insert.columns ==> Optional(s[insert.table][c])
  }

  ghost predicate Works(client: Client, s: Schema) {
    && (forall r :: r in client.queries ==> ReadWorks(r, s))
    && (forall i :: i in client.inserts ==> InsertWorks(i, s))
  }

  // -- schema operations --------------------------------------------------

  datatype DefaultChange = Keep | Set | Drop

  datatype Op =
    | AddColumn(table: string, column: string, nullable: bool, hasDefault: bool)
    | AlterColumn(table: string, column: string, rename: Option<string>,
                  setNullable: Option<bool>, default: DefaultChange)
    | DropColumn(table: string, column: string)
    | DropTable(table: string)
    | RenameTable(table: string, newName: string)
    | CreateTable(table: string, columns: map<string, Column>)
    | NoSchemaEffect
    | Anything  // raw SQL, helpers, objects the model cannot follow

  function Altered(c: Column, setNullable: Option<bool>, default: DefaultChange): Column {
    Column(if setNullable.Some? then setNullable.value else c.nullable,
           match default case Keep => c.hasDefault case Set => true case Drop => false)
  }

  /** The op succeeds and takes `s` to `t`. A failing op ends the run. */
  ghost predicate Step(op: Op, s: Schema, t: Schema) {
    match op
    case AddColumn(table, column, nullable, hasDefault) =>
      table in s && column !in s[table] &&
      t == s[table := s[table][column := Column(nullable, hasDefault)]]
    case AlterColumn(table, column, rename, setNullable, default) =>
      table in s && column in s[table] &&
      var changed := Altered(s[table][column], setNullable, default);
      if rename.None? then t == s[table := s[table][column := changed]]
      else rename.value !in s[table] &&
           t == s[table := (s[table] - {column})[rename.value := changed]]
    case DropColumn(table, column) =>
      table in s && column in s[table] && t == s[table := s[table] - {column}]
    case DropTable(table) => table in s && t == s - {table}
    case RenameTable(table, newName) =>
      table in s && newName !in s && t == (s - {table})[newName := s[table]]
    case CreateTable(table, columns) => table !in s && t == s[table := columns]
    case NoSchemaEffect => t == s
    case Anything => true
  }

  // -- what a call may denote ---------------------------------------------

  /** The alembic operation a call performs when run: `op.m(...)` or `alembic.op.m(...)`. */
  function RuntimeMethod(n: Node): Option<string> {
    if n.Call? && n.func.Attribute? &&
       (n.func.value == Name("op") || n.func.value == Attribute(Name("alembic"), "op"))
    then Some(n.func.attr)
    else None
  }

  predicate RootedAtSa(n: Node) {
    n == Name("sa") || (n.Attribute? && RootedAtSa(n.value))
  }

  /** `sa.x.y(...)`: builds a value, touches no schema. */
  predicate Builder(n: Node) {
    n.Call? && n.func.Attribute? && RootedAtSa(n.func)
  }

  predicate ColumnCall(n: Node) {
    n.Call? && n.func == Attribute(Name("sa"), "Column")
  }

  /** No `**mapping` among the keywords. */
  predicate Explicit(keywords: seq<Node>) {
    forall k :: k in keywords ==> k.Keyword? && k.arg.Some?
  }

  /** A keyword as seen at run time: `None` for absent or unknown behind `**`. */
  predicate MayBeFlag(keywords: seq<Node>, name: string, absent: bool, b: bool) {
    var v := KwValue(keywords, name);
    if v.None? then (Explicit(keywords) ==> b == absent)
    else v.value.Constant? && v.value.literal.Bool? ==> b == v.value.literal.b
  }

  predicate MayBeDefault(keywords: seq<Node>, present: bool) {
    var v := KwValue(keywords, "server_default");
    if v.None? then (Explicit(keywords) ==> !present)
    else if v.value.Constant? then present == (v.value.literal != Null)
    else Builder(v.value) ==> present
  }

  /** alembic's `alter_column`: `False` is "leave it", `None` is "drop it". */
  predicate MayBeDefaultChange(keywords: seq<Node>, change: DefaultChange) {
    var v := KwValue(keywords, "server_default");
    if v.None? then (Explicit(keywords) ==> change == Keep)
    else if v.value == Constant(Bool(false)) then change == Keep
    else if v.value == Constant(Null) then change == Drop
    else if v.value.Constant? || Builder(v.value) then change == Set
    else true
  }

  predicate MayBeNullability(keywords: seq<Node>, change: Option<bool>) {
    var v := KwValue(keywords, "nullable");
    if v.None? then (Explicit(keywords) ==> change == None)
    else if v.value == Constant(Null) then change == None
    else v.value.Constant? && v.value.literal.Bool? ==> change == Some(v.value.literal.b)
  }

  predicate MayBeRename(keywords: seq<Node>, rename: Option<string>) {
    KwValue(keywords, "new_column_name").None? && Explicit(keywords) ==> rename == None
  }

  /** The table named by the first argument: any, unless it is a literal. */
  predicate MayName(args: seq<Node>, i: nat, name: string) {
    i < |args| && args[i].Constant? && args[i].literal.Text? ==> name == args[i].literal.s
  }

  predicate MayAdd(n: Node, nullable: bool, hasDefault: bool)
    requires n.Call?
  {
    |n.args| >= 2 && ColumnCall(n.args[1]) ==>
      && (KwValue(n.args[1].keywords, "primary_key").None? || KwValue(n.args[1].keywords, "nullable").Some?
          ==> MayBeFlag(n.args[1].keywords, "nullable", true, nullable))
      && MayBeDefault(n.args[1].keywords, hasDefault)
  }

  const INDEX_METHODS := {"create_index", "drop_index", "create_unique_constraint", "get_bind", "f"}

  /** The operations running `n` may perform, over every value of its non-literal parts. */
  ghost predicate Denotes(n: Node, op: Op)
    requires n.Call?
  {
    var verb := RuntimeMethod(n);
    if verb == Some("add_column") then
      op.AddColumn? && MayName(n.args, 0, op.table) && MayAdd(n, op.nullable, op.hasDefault)
    else if verb == Some("alter_column") then
      op.AlterColumn? && MayName(n.args, 0, op.table) && MayName(n.args, 1, op.column) &&
      MayBeRename(n.keywords, op.rename) && MayBeNullability(n.keywords, op.setNullable) &&
      MayBeDefaultChange(n.keywords, op.default)
    else if verb == Some("drop_column") then
      op.DropColumn? && MayName(n.args, 0, op.table) && MayName(n.args, 1, op.column)
    else if verb == Some("drop_table") then op.DropTable? && MayName(n.args, 0, op.table)
    else if verb == Some("rename_table") then
      op.RenameTable? && MayName(n.args, 0, op.table) && MayName(n.args, 1, op.newName)
    else if verb == Some("create_table") then op.CreateTable? && MayName(n.args, 0, op.table)
    else if (verb.Some? && verb.value in INDEX_METHODS) || (verb.None? && Builder(n)) then
      op == NoSchemaEffect
    else op == Anything
  }

  // -- one call -----------------------------------------------------------

  /** Whatever `n` turns out to do, no old client that worked stops working. */
  ghost predicate CallSafe(n: Node)
    requires n.Call?
  {
    forall op, s, t, client ::
      Denotes(n, op) && Step(op, s, t) && Works(client, s) ==> Works(client, t)
  }

  predicate AddStaysOptional(n: Node)
    requires n.Call?
  {
    |n.args| >= 2 && ColumnCall(n.args[1]) &&
    var keywords := n.args[1].keywords;
    var nullable, default := KwValue(keywords, "nullable"), KwValue(keywords, "server_default");
    || nullable == Some(Constant(Bool(true)))
    || (nullable.None? && KwValue(keywords, "primary_key").None? && Explicit(keywords))
    || (default.Some? && ((default.value.Constant? && default.value.literal != Null) || Builder(default.value)))
  }

  predicate AlterKeepsOptional(n: Node)
    requires n.Call?
  {
    Explicit(n.keywords) && KwValue(n.keywords, "new_column_name").None? &&
    var nullable, default := KwValue(n.keywords, "nullable"), KwValue(n.keywords, "server_default");
    var keeps := default.None? || default.value == Constant(Bool(false));
    var sets := default.Some? && default.value != Constant(Bool(false)) &&
                ((default.value.Constant? && default.value.literal != Null) || Builder(default.value));
    nullable == Some(Constant(Bool(true))) || sets ||
    (keeps && (nullable.None? || nullable.value == Constant(Null)))
  }

  /** Such a rename always fails. */
  predicate RenamesToItself(n: Node)
    requires n.Call?
  {
    LiteralOr(n.args, 0, "t") == LiteralOr(n.args, 1, "t2") &&
    LiteralOr(n.args, 0, "t1") == LiteralOr(n.args, 1, "t1")
  }

  /** What makes a call safe, whoever judges it. */
  predicate Harmless(n: Node)
    requires n.Call?
  {
    var verb := RuntimeMethod(n);
    if verb == Some("add_column") then AddStaysOptional(n)
    else if verb == Some("alter_column") then AlterKeepsOptional(n)
    else if verb == Some("create_table") then true
    else if verb == Some("rename_table") then RenamesToItself(n)
    else if verb.Some? then verb.value in INDEX_METHODS
    else Builder(n)
  }

  lemma AddingIsSafe(op: Op, s: Schema, t: Schema, client: Client)
    requires op.AddColumn? && (op.nullable || op.hasDefault)
    requires Step(op, s, t) && Works(client, s)
    ensures Works(client, t)
  {
  }

  lemma AlteringIsSafe(op: Op, s: Schema, t: Schema, client: Client)
    requires op.AlterColumn? && op.rename == None
    requires op.setNullable == Some(true) || op.default == Set || (op.setNullable == None && op.default == Keep)
    requires Step(op, s, t) && Works(client, s)
    ensures Works(client, t)
  {
    assert t[op.table].Keys == s[op.table].Keys;
  }

  lemma HarmlessIsSafe(n: Node)
    requires n.Call? && Harmless(n)
    ensures CallSafe(n)
  {
    forall op, s, t, client | Denotes(n, op) && Step(op, s, t) && Works(client, s)
      ensures Works(client, t)
    {
      if op.AddColumn? {
        AddingIsSafe(op, s, t, client);
      } else if op.AlterColumn? {
        AlteringIsSafe(op, s, t, client);
      }
    }
  }

  /** A witness that `n` can break a client. */
  ghost predicate Broken(n: Node, op: Op, s: Schema, t: Schema, client: Client)
    requires n.Call?
  {
    Denotes(n, op) && Step(op, s, t) && Works(client, s) && !Works(client, t)
  }

  function LiteralOr(args: seq<Node>, i: nat, other: string): string {
    if i < |args| && args[i].Constant? && args[i].literal.Text? then args[i].literal.s else other
  }

  lemma RequiredAddBreaks(n: Node)
    requires n.Call? && RuntimeMethod(n) == Some("add_column") && !AddStaysOptional(n)
    ensures !CallSafe(n)
  {
    var table := LiteralOr(n.args, 0, "t");
    var op := AddColumn(table, "c", false, false);
    var s: Schema := map[table := map[]];
    var t: Schema := map[table := map["c" := Column(false, false)]];
    var insert := Insert(table, {});
    assert t == s[table := s[table]["c" := Column(false, false)]];
    assert !Optional(t[table]["c"]) && !InsertWorks(insert, t);
    assert insert in Client({}, {insert}).inserts;
    assert Broken(n, op, s, t, Client({}, {insert}));
  }

  lemma RenamingAlterBreaks(n: Node)
    requires n.Call? && RuntimeMethod(n) == Some("alter_column")
    requires KwValue(n.keywords, "new_column_name").Some? || !Explicit(n.keywords)
    ensures !CallSafe(n)
  {
    var table, column := LiteralOr(n.args, 0, "t"), LiteralOr(n.args, 1, "c");
    var v := KwValue(n.keywords, "nullable");
    var change := if v.Some? && v.value.Constant? && v.value.literal.Bool? then Some(v.value.literal.b) else None;
    var default := if MayBeDefaultChange(n.keywords, Keep) then Keep
                   else if MayBeDefaultChange(n.keywords, Set) then Set else Drop;
    var renamed := column + "2";
    assert |renamed| != |column|;
    var op := AlterColumn(table, column, Some(renamed), change, default);
    assert Denotes(n, op);
    var s: Schema := map[table := map[column := Column(true, true)]];
    var changed := Altered(Column(true, true), change, default);
    var t := s[table := (s[table] - {column})[renamed := changed]];
    var client := Client({(table, column)}, {});
    assert (table, column) in client.queries && !ReadWorks((table, column), t);
    assert Step(op, s, t);
    assert Broken(n, op, s, t, client);
  }

  lemma TighteningAlterBreaks(n: Node)
    requires n.Call? && RuntimeMethod(n) == Some("alter_column") && !AlterKeepsOptional(n)
    requires KwValue(n.keywords, "new_column_name").None? && Explicit(n.keywords)
    ensures !CallSafe(n)
  {
    var table, column := LiteralOr(n.args, 0, "t"), LiteralOr(n.args, 1, "c");
    var setNullable := if MayBeNullability(n.keywords, Some(false)) then Some(false) else None;
    var default := if MayBeDefaultChange(n.keywords, Drop) then Drop else Keep;
    var before := Column(setNullable == Some(false), default == Drop);
    var op := AlterColumn(table, column, None, setNullable, default);
    assert Denotes(n, op);
    var s: Schema := map[table := map[column := before]];
    var after := Altered(before, setNullable, default);
    var t := s[table := s[table][column := after]];
    assert Step(op, s, t);
    var insert := Insert(table, {});
    var client := Client({}, {insert});
    assert insert in client.inserts && !Optional(t[table][column]) && !InsertWorks(insert, t);
    assert Broken(n, op, s, t, client);
  }

  lemma RenameBreaks(n: Node)
    requires n.Call? && RuntimeMethod(n) == Some("rename_table") && !RenamesToItself(n)
    ensures !CallSafe(n)
  {
    var free := LiteralOr(n.args, 1, "") + "x";
    var table := LiteralOr(n.args, 0, free);
    var newName := LiteralOr(n.args, 1, table + "x");
    assert |free| == |LiteralOr(n.args, 1, "")| + 1 && |table + "x"| == |table| + 1;
    var s: Schema := map[table := map["c" := Column(true, true)]];
    var t := (s - {table})[newName := s[table]];
    var client := Client({(table, "c")}, {});
    assert (table, "c") in client.queries;
    assert newName != table;
    assert !ReadWorks((table, "c"), t);
    assert Broken(n, RenameTable(table, newName), s, t, client);
  }

  lemma OtherCallsBreak(n: Node)
    requires n.Call? && !Harmless(n)
    requires RuntimeMethod(n) !in {Some("add_column"), Some("alter_column")}
    ensures !CallSafe(n)
  {
    var verb := RuntimeMethod(n);
    var table, column := LiteralOr(n.args, 0, "t"), LiteralOr(n.args, 1, "c");
    var s: Schema := map[table := map[column := Column(true, true)]];
    var client := Client({(table, column)}, {});
    assert (table, column) in client.queries;
    if verb == Some("drop_column") {
      var t := s[table := s[table] - {column}];
      assert !ReadWorks((table, column), t);
      assert Broken(n, DropColumn(table, column), s, t, client);
    } else if verb == Some("drop_table") {
      var t := s - {table};
      assert !ReadWorks((table, column), t);
      assert Broken(n, DropTable(table), s, t, client);
    } else if verb == Some("rename_table") {
      RenameBreaks(n);
    } else {
      assert !ReadWorks((table, column), map[]);
      assert Broken(n, Anything, s, map[], client);
    }
  }

  /** A call is safe exactly when it is harmless. */
  lemma CallSafeIff(n: Node)
    requires n.Call?
    ensures CallSafe(n) <==> Harmless(n)
  {
    if Harmless(n) {
      HarmlessIsSafe(n);
    } else if RuntimeMethod(n) == Some("add_column") {
      RequiredAddBreaks(n);
    } else if RuntimeMethod(n) == Some("alter_column") {
      if KwValue(n.keywords, "new_column_name").Some? || !Explicit(n.keywords) {
        RenamingAlterBreaks(n);
      } else {
        TighteningAlterBreaks(n);
      }
    } else {
      OtherCallsBreak(n);
    }
  }

  // -- where the gate judges rightly ----------------------------------------

  /** The method of a call written `op.m(...)`. */
  function DirectMethod(n: Node): Option<string> {
    if n.Call? && n.func.Attribute? && n.func.value == Name("op") then Some(n.func.attr) else None
  }

  predicate BoolLiteral(v: Option<Node>) {
    v.Some? && v.value.Constant? && v.value.literal.Bool?
  }

  /** A `server_default` that is one: a builder, or a literal other than None and False. */
  predicate RealDefault(v: Option<Node>) {
    v.Some? && (Builder(v.value) || (v.value.Constant? && v.value.literal !in {Null, Bool(false)}))
  }

  /** Both keywords can be read off the call: nothing behind `**`, and each absent or plain. */
  predicate KeywordsReadable(keywords: seq<Node>) {
    var nullable, default := KwValue(keywords, "nullable"), KwValue(keywords, "server_default");
    Explicit(keywords) && (nullable.None? || BoolLiteral(nullable)) && (default.None? || RealDefault(default))
  }

  /** The side conditions: the call is one of those the gate knows, written as it expects them,
      with a literal column and plain keywords. They say nothing of what the keywords' values are. */
  predicate Readable(n: Node)
    requires n.Call?
  {
    var m := DirectMethod(n);
    if m == Some("add_column") then
      && |n.args| >= 2 && ColumnCall(n.args[1]) && KeywordsReadable(n.args[1].keywords)
      && KwValue(n.args[1].keywords, "primary_key").None?
    else if m == Some("alter_column") then KeywordsReadable(n.keywords)
    else if m == Some("rename_table") then !RenamesToItself(n)
    else if m.Some? then m.value in INDEX_METHODS + {"create_table", "drop_column", "drop_table"}
    else Builder(n)
  }

  lemma BuildersAreNotFlagged(func: Node)
    requires RootedAtSa(func)
    ensures CallNameFrom(func) == None
  {
    if func.Attribute? {
      BuildersAreNotFlagged(func.value);
    }
  }

  /** On the side conditions the gate reports a call exactly when it can break an old client. */
  lemma ReadableIsJudgedRightly(n: Node)
    requires n.Call? && Readable(n)
    ensures Flagged(n) <==> !CallSafe(n)
  {
    CallSafeIff(n);
    if DirectMethod(n).None? {
      BuildersAreNotFlagged(n.func);
    } else {
      assert CallName(n) == DirectMethod(n) == RuntimeMethod(n);
      assert Flagged(n) <==> !Harmless(n);
    }
  }

  /** Without side conditions, what the gate misses of the calls written `op.m(...)`. A column
      that may be required: its call is not a literal `sa.Column`, or has no real default and a
      nullability that cannot be read, or is required with a `server_default` that is none. A
      column that may be tightened, renamed behind `**`, or lose its default. And any method that
      the gate does not know, `execute` among them. */
  predicate Missed(n: Node)
    requires DirectMethod(n).Some?
  {
    var m := DirectMethod(n).value;
    if m == "add_column" then
      var keywords := ColumnKeywords(n);
      var nullable, default := KwValue(keywords, "nullable"), KwValue(keywords, "server_default");
      var literal := |n.args| >= 2 && ColumnCall(n.args[1]);
      if IsFalse(nullable) then default.Some? && !(literal && (RealDefault(default) || IsFalse(default)))
      else !(literal && (BoolLiteral(nullable) || RealDefault(default) || IsFalse(default)
                         || (nullable.None? && Explicit(keywords) && KwValue(keywords, "primary_key").None?)))
    else if m == "alter_column" then
      var nullable, default := KwValue(n.keywords, "nullable"), KwValue(n.keywords, "server_default");
      KwValue(n.keywords, "new_column_name").None? &&
      if IsFalse(nullable) then default.Some? && !(Explicit(n.keywords) && RealDefault(default))
      else !(Explicit(n.keywords) &&
             (BoolLiteral(nullable) || RealDefault(default)
              || ((nullable.None? || nullable.value == Constant(Null)) && (default.None? || IsFalse(default)))))
    else m !in INDEX_METHODS + DANGEROUS_METHODS + {"create_table"}
  }

  lemma MissedIff(n: Node)
    requires DirectMethod(n).Some?
    ensures (!Flagged(n) && !CallSafe(n)) <==> Missed(n)
  {
    CallSafeIff(n);
    assert CallName(n) == DirectMethod(n) == RuntimeMethod(n);
  }

  /** What it misses of all calls. Those written `alembic.op.m(...)` are never reported; any other,
      such as `bind.execute(...)` or a helper, is missed unless it is a builder, or its attribute
      next to an `op` or `alembic` is one the gate reports. */
  predicate MissedCall(n: Node)
    requires n.Call?
  {
    if DirectMethod(n).Some? then Missed(n)
    else if RuntimeMethod(n).Some? then !Harmless(n)
    else !Builder(n) && !(CallName(n).Some? && Flagged(n))
  }

  lemma MissedCallIff(n: Node)
    requires n.Call?
    ensures (!Flagged(n) && !CallSafe(n)) <==> MissedCall(n)
    ensures CallName(n).None? ==> (MissedCall(n) <==> !Builder(n))
  {
    CallSafeIff(n);
    if DirectMethod(n).Some? {
      MissedIff(n);
    } else if RuntimeMethod(n).Some? {
      QualifiedIsNeverReported(n);
      assert CallNameFrom(n.func.value) == Some("op");
    }
  }

  /** A call written `alembic.op.m(...)` is never reported: it is missed just when it is unsafe. */
  lemma QualifiedIsNeverReported(n: Node)
    requires n.Call? && n.func.Attribute? && n.func.value == Attribute(Name("alembic"), "op")
    ensures Judge(n) == None && RuntimeMethod(n) == Some(n.func.attr)
    ensures CallSafe(n) <==> Harmless(n)
  {
    assert CallNameFrom(n.func.value) == Some("op");
    CallSafeIff(n);
  }

  // -- whole runs ---------------------------------------------------------

  /** `trace` lists the calls of one execution of `n`, in order, over every branch choice and
      every iteration count. */
  ghost predicate Executes(n: Node, trace: seq<Node>)
    decreases n, 1
  {
    match n
    case Name(_) | Constant(_) | Pass => trace == []
    case Attribute(v, _) => Executes(v, trace)
    case Keyword(_, v) => Executes(v, trace)
    case ExprStmt(v) => Executes(v, trace)
    case Call(f, args, keywords, _) =>
      exists a, b, c ::
        trace == a + b + c + [n] && Executes(f, a) && ExecutesAll(args, b) && ExecutesAll(keywords, c)
    case If(test, body, orelse) =>
      exists a, b :: trace == a + b && Executes(test, a) && (ExecutesAll(body, b) || ExecutesAll(orelse, b))
    case Loop(head, body, orelse) =>
      exists heads: seq<seq<Node>>, bodies: seq<seq<Node>>, last ::
        && |heads| == |bodies| + 1
        && (forall a :: a in heads ==> Executes(head, a))
        && (forall b :: b in bodies ==> ExecutesAll(body, b))
        && (last == [] || ExecutesAll(orelse, last))
        && trace == Interleave(heads, bodies) + last
    case Block(parts) => ExecutesAll(parts, trace)
    case Maybe(parts) =>
      exists pieces: seq<seq<Node>> ::
        trace == Interleave(pieces, []) &&
        forall a :: a in pieces ==> exists i :: 0 <= i < |parts| && Executes(parts[i], a)
  }

  /** The list is run in order; `return`, `break` or `continue` may cut it short anywhere. */
  ghost predicate ExecutesAll(ns: seq<Node>, trace: seq<Node>)
    decreases ns, 0
  {
    if ns == [] then trace == []
    else trace == [] || exists a, b :: trace == a + b && Executes(ns[0], a) && ExecutesAll(ns[1..], b)
  }

  /** heads[0] + bodies[0] + heads[1] + ...; missing bodies count as empty. */
  ghost function Interleave(heads: seq<seq<Node>>, bodies: seq<seq<Node>>): seq<Node> {
    if heads == [] then []
    else heads[0] + (if bodies == [] then [] else bodies[0])
         + Interleave(heads[1..], if bodies == [] then [] else bodies[1..])
  }

  /** Running `n` can take the schema from `s` to `t`. */
  ghost predicate CallStep(n: Node, s: Schema, t: Schema) {
    n.Call? && exists op :: Denotes(n, op) && Step(op, s, t)
  }

  /** Running the calls of `trace` can take the schema through `states`. */
  ghost predicate Runs(trace: seq<Node>, states: seq<Schema>) {
    |states| == |trace| + 1 && forall i :: 0 <= i < |trace| ==> CallStep(trace[i], states[i], states[i + 1])
  }

  lemma {:induction false} InterleaveMembers(heads: seq<seq<Node>>, bodies: seq<seq<Node>>, x: Node)
    requires x in Interleave(heads, bodies)
    ensures exists a :: (a in heads || a in bodies) && x in a
  {
    if x !in heads[0] && (bodies == [] || x !in bodies[0]) {
      InterleaveMembers(heads[1..], if bodies == [] then [] else bodies[1..], x);
    } else if x in heads[0] {
      assert heads[0] in heads;
    } else {
      assert bodies[0] in bodies;
    }
  }

  /** Nothing runs that the walk does not visit. */
  lemma {:induction false} ExecutedIsVisited(n: Node, trace: seq<Node>, x: Node)
    requires Executes(n, trace) && x in trace
    ensures x.Call? && x in Subtree(n)
    decreases n, 1
  {
    match n
    case Name(_) | Constant(_) | Pass =>
    case Attribute(v, _) => ExecutedIsVisited(v, trace, x);
    case Keyword(_, v) => ExecutedIsVisited(v, trace, x);
    case ExprStmt(v) => ExecutedIsVisited(v, trace, x);
    case Call(f, args, keywords, _) =>
      var a, b, c :|
        trace == a + b + c + [n] && Executes(f, a) && ExecutesAll(args, b) && ExecutesAll(keywords, c);
      if x in a { ExecutedIsVisited(f, a, x); }
      else if x in b { AllExecutedIsVisited(args, b, x); }
      else if x in c { AllExecutedIsVisited(keywords, c, x); }
    case If(test, body, orelse) =>
      var a, b :| trace == a + b && Executes(test, a) && (ExecutesAll(body, b) || ExecutesAll(orelse, b));
      if x in a { ExecutedIsVisited(test, a, x); }
      else if ExecutesAll(body, b) { AllExecutedIsVisited(body, b, x); }
      else { AllExecutedIsVisited(orelse, b, x); }
    case Loop(head, body, orelse) =>
      var heads: seq<seq<Node>>, bodies: seq<seq<Node>>, last :|
        && |heads| == |bodies| + 1
        && (forall a :: a in heads ==> Executes(head, a))
        && (forall b :: b in bodies ==> ExecutesAll(body, b))
        && (last == [] || ExecutesAll(orelse, last))
        && trace == Interleave(heads, bodies) + last;
      if x in last {
        AllExecutedIsVisited(orelse, last, x);
      } else {
        InterleaveMembers(heads, bodies, x);
        var a :| (a in heads || a in bodies) && x in a;
        if a in heads { ExecutedIsVisited(head, a, x); } else { AllExecutedIsVisited(body, a, x); }
      }
    case Block(parts) => AllExecutedIsVisited(parts, trace, x);
    case Maybe(parts) => SomeExecutedIsVisited(parts, trace, x);
  }

  lemma {:induction false} SomeExecutedIsVisited(parts: seq<Node>, trace: seq<Node>, x: Node)
    requires Executes(Maybe(parts), trace) && x in trace
    ensures x.Call? && x in Forest(parts)
    decreases parts, 0
  {
    var pieces: seq<seq<Node>> :|
      trace == Interleave(pieces, []) &&
      forall a :: a in pieces ==> exists i :: 0 <= i < |parts| && Executes(parts[i], a);
    InterleaveMembers(pieces, [], x);
    var a :| a in pieces && x in a;
    var i :| 0 <= i < |parts| && Executes(parts[i], a);
    ExecutedIsVisited(parts[i], a, x);
    MemberOfForest(parts, i, x);
  }

  lemma {:induction false} AllExecutedIsVisited(ns: seq<Node>, trace: seq<Node>, x: Node)
    requires ExecutesAll(ns, trace) && x in trace
    ensures x.Call? && x in Forest(ns)
    decreases ns, 0
  {
    var a, b :| trace == a + b && Executes(ns[0], a) && ExecutesAll(ns[1..], b);
    if x in a { ExecutedIsVisited(ns[0], a, x); } else { AllExecutedIsVisited(ns[1..], b, x); }
  }

  lemma {:induction false} MemberOfForest(ns: seq<Node>, i: nat, x: Node)
    requires i < |ns| && x in Subtree(ns[i])
    ensures x in Forest(ns)
  {
    if i > 0 { MemberOfForest(ns[1..], i - 1, x); }
  }

  lemma SafeStep(n: Node, s: Schema, t: Schema, client: Client)
    requires CallStep(n, s, t) && CallSafe(n) && Works(client, s)
    ensures Works(client, t)
  {
    var op :| Denotes(n, op) && Step(op, s, t);
  }

  lemma {:induction false} SafeCallsKeepClients(trace: seq<Node>, states: seq<Schema>, client: Client, k: nat)
    requires Runs(trace, states) && k <= |trace|
    requires forall i :: 0 <= i < |trace| ==> trace[i].Call? && CallSafe(trace[i])
    requires Works(client, states[0])
    ensures Works(client, states[k])
  {
    if k > 0 {
      SafeCallsKeepClients(trace, states, client, k - 1);
      assert CallStep(trace[k - 1], states[k - 1], states[k]);
      SafeStep(trace[k - 1], states[k - 1], states[k], client);
    }
  }

  /** Python runs the last definition of a name; the gate reads the first. */
  function RuntimeDef(defs: seq<FunctionDef>, name: string): Option<FunctionDef> {
    if defs == [] then None
    else if defs[|defs| - 1].name == name then Some(defs[|defs| - 1])
    else RuntimeDef(defs[..|defs| - 1], name)
  }

  /** Soundness: with no unsafe and no overridden finding, on the side conditions, no execution
      of `upgrade()` ever leaves an old client broken, at any intermediate point. */
  lemma GateSoundness(source: Source, trace: seq<Node>, states: seq<Schema>, client: Client, k: nat)
    requires forall f :: f in FindingsOf(source) ==> f.kind == Warning
    requires source.Module? && RuntimeDef(source.defs, "upgrade") == FirstDef(source.defs, "upgrade")
    requires FirstDef(source.defs, "upgrade").Some? ==>
               forall n :: n in Subtree(Block(FirstDef(source.defs, "upgrade").value.body)) && n.Call?
                           ==> Readable(n)
    requires RuntimeDef(source.defs, "upgrade").Some? ==>
               Executes(Block(RuntimeDef(source.defs, "upgrade").value.body), trace)
    requires Runs(trace, states) && k <= |trace| && Works(client, states[0])
    ensures Works(client, states[k])
  {
    CleanMeansNothingFlagged(source);
    var def := FirstDef(source.defs, "upgrade").value;
    UnflaggedBodyIsSafe(def, trace);
    SafeCallsKeepClients(trace, states, client, k);
  }

  lemma UnflaggedBodyIsSafe(def: FunctionDef, trace: seq<Node>)
    requires forall n :: n in Subtree(DefTree(def)) ==> !Flagged(n)
    requires forall n :: n in Subtree(Block(def.body)) && n.Call? ==> Readable(n)
    requires Executes(Block(def.body), trace)
    ensures forall n :: n in trace ==> n.Call? && CallSafe(n)
  {
    forall n | n in trace ensures n.Call? && CallSafe(n) {
      ExecutedIsVisited(Block(def.body), trace, n);
      BodyIsInTree(def, n);
      ReadableIsJudgedRightly(n);
    }
  }

  lemma BodyIsInTree(def: FunctionDef, n: Node)
    requires n in Subtree(Block(def.body)) && n.Call?
    ensures n in Subtree(DefTree(def))
  {
    ForestAppend([Block(def.defaults)] + def.body, def.decorators);
    ForestAppend([Block(def.defaults)], def.body);
  }

  /** The report is needed: the same side conditions hold of a file that drops a column, which
      has a finding, and whose execution breaks a reader. */
  lemma ReportIsNeeded(line: nat) returns (source: Source, trace: seq<Node>, states: seq<Schema>, client: Client)
    ensures source.Module? && FirstDef(source.defs, "upgrade").Some?
    ensures var body := Block(FirstDef(source.defs, "upgrade").value.body);
            && (forall n :: n in Subtree(body) && n.Call? ==> Readable(n))
            && Executes(body, trace)
    ensures Runs(trace, states) && Works(client, states[0]) && !Works(client, states[|trace|])
    ensures exists f :: f in FindingsOf(source) && f.kind == Unsafe
  {
    var n := Call(Attribute(Name("op"), "drop_column"), [Constant(Text("t")), Constant(Text("c"))], [], line);
    source := Module([], [FunctionDef("upgrade", [], [ExprStmt(n)], [])]);
    trace := [n];
    DropRuns(n);
    states, client := DropBreaksReader(n);
    assert Flagged(n);
    FileBlockedIff(source);
    BodyIsInTree(source.defs[0], n);
  }

  lemma DropBreaksReader(n: Node) returns (states: seq<Schema>, client: Client)
    requires n.Call? && RuntimeMethod(n) == Some("drop_column")
    requires n.args == [Constant(Text("t")), Constant(Text("c"))]
    ensures Runs([n], states) && Works(client, states[0]) && !Works(client, states[1])
  {
    var s: Schema := map["t" := map["c" := Column(true, true)]];
    var t := s["t" := s["t"] - {"c"}];
    states, client := [s, t], Client({("t", "c")}, {});
    assert Denotes(n, DropColumn("t", "c")) && Step(DropColumn("t", "c"), s, t);
    assert CallStep([n][0], states[0], states[1]);
    assert ("t", "c") in client.queries && !ReadWorks(("t", "c"), t);
  }

  /** Nor does a clean report say anything of a second definition of `upgrade`: whatever is in
      its body, which is the one that runs, the gate has no more than warnings. */
  lemma SecondUpgradeIsNotRead(body: seq<Node>) returns (source: Source)
    ensures source.Module? && RuntimeDef(source.defs, "upgrade").Some?
    ensures RuntimeDef(source.defs, "upgrade").value.body == body
    ensures forall f :: f in FindingsOf(source) ==> f.kind == Warning
  {
    var first, second := FunctionDef("upgrade", [], [Pass], []), FunctionDef("upgrade", [], body, []);
    source := Module([], [first, second]);
    var root := DefTree(first);
    PassTree();
    forall n | n in BreadthFirst([root]) ensures !n.Call? {
      WalkVisits(root, n);
    }
    NoCallsNoFindings([], BreadthFirst([root]));
  }

  lemma {:induction false} NoCallsNoFindings(overrides: seq<(nat, string)>, visited: seq<Node>)
    requires forall n :: n in visited ==> !n.Call?
    ensures WalkFindings(overrides, visited) == []
  {
    if visited != [] {
      assert visited[|visited| - 1] in visited;
      NoCallsNoFindings(overrides, visited[..|visited| - 1]);
    }
  }

  lemma PassTree()
    ensures forall n :: n in Subtree(DefTree(FunctionDef("upgrade", [], [Pass], []))) ==> !n.Call?
  {
    var parts := [Block([])] + [Pass] + [];
    assert parts == [Block([]), Pass] && parts[1..] == [Pass] && [Pass][1..] == [];
    assert Forest(parts) == Subtree(Block([])) + (Subtree(Pass) + Forest([]));
  }

  predicate PlainDrop(n: Node) {
    && n.Call? && n.func == Attribute(Name("op"), "drop_column") && n.keywords == []
    && |n.args| == 2 && n.args[0].Constant? && n.args[1].Constant?
  }

  /** Running the one statement makes the one call, and no other is in it. */
  lemma DropRuns(n: Node)
    requires PlainDrop(n)
    ensures Executes(Block([ExprStmt(n)]), [n])
    ensures n in Subtree(Block([ExprStmt(n)]))
    ensures forall x :: x in Subtree(Block([ExprStmt(n)])) && x.Call? ==> x == n
  {
    DropExecutes(n);
    StatementExecutes(n);
    StatementTree(n);
    DropTree(n);
  }

  lemma StatementTree(n: Node)
    ensures Subtree(Block([ExprStmt(n)])) == [Block([ExprStmt(n)]), ExprStmt(n)] + Subtree(n)
  {
    assert Forest([ExprStmt(n)]) == Subtree(ExprStmt(n)) + Forest([]);
  }

  lemma DropExecutes(n: Node)
    requires PlainDrop(n)
    ensures Executes(n, [n])
  {
    assert Executes(n.func.value, []) && Executes(n.func, []);
    assert ExecutesAll(n.args, []) && ExecutesAll(n.keywords, []);
    assert [n] == [] + [] + [] + [n];
  }

  lemma StatementExecutes(n: Node)
    requires Executes(n, [n])
    ensures Executes(Block([ExprStmt(n)]), [n])
  {
    assert Executes(ExprStmt(n), [n]);
    assert [ExprStmt(n)][1..] == [] && [n] == [n] + [] && ExecutesAll([], []);
    assert ExecutesAll([ExprStmt(n)], [n]);
  }

  lemma DropTree(n: Node)
    requires PlainDrop(n)
    ensures n in Subtree(n)
    ensures forall x :: x in Subtree(n) && x.Call? ==> x == n
  {
    assert Subtree(n)[0] == n;
    assert Subtree(n.func) == [n.func] + Subtree(n.func.value);
    assert Forest(n.args) == [n.args[0]] + Forest(n.args[1..]) && n.args[1..] == [n.args[1]];
    assert Forest([n.args[1]]) == [n.args[1]] + Forest([]);
  }

  /** `alembic.op.drop_column("t", "c")` is not reported at all, and breaks every reader of t.c. */
  lemma QualifiedDropIsMissed(line: nat)
    ensures var n := Call(Attribute(Attribute(Name("alembic"), "op"), "drop_column"),
                          [Constant(Text("t")), Constant(Text("c"))], [], line);
            Judge(n) == None && !CallSafe(n)
  {
    var n := Call(Attribute(Attribute(Name("alembic"), "op"), "drop_column"),
                  [Constant(Text("t")), Constant(Text("c"))], [], line);
    QualifiedIsNeverReported(n);
  }

  /** A required column with a literal `server_default=None` is not reported either. */
  lemma DefaultOfNoneIsMissed(line: nat)
    ensures var column := Call(Attribute(Name("sa"), "Column"), [Constant(Text("c"))],
                               [Keyword(Some("nullable"), Constant(Bool(false))),
                                Keyword(Some("server_default"), Constant(Null))], line);
            var n := Call(Attribute(Name("op"), "add_column"), [Constant(Text("t")), column], [], line);
            Judge(n) == None && !CallSafe(n)
  {
    var keywords := [Keyword(Some("nullable"), Constant(Bool(false))),
                     Keyword(Some("server_default"), Constant(Null))];
    var column := Call(Attribute(Name("sa"), "Column"), [Constant(Text("c"))], keywords, line);
    var n := Call(Attribute(Name("op"), "add_column"), [Constant(Text("t")), column], [], line);
    assert KwValue(keywords[1..], "server_default") == Some(Constant(Null));
    CallSafeIff(n);
  }
}
