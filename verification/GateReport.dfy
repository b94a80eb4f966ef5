/** What a report of the gate says, read off the file: which calls, under which override, and what
    the exit code makes of it. Nothing here is stated through the gate's own judgement. */
module GateReport {
  import opened Prelude
  import opened PythonAst
  import opened MigrationGate

  // -- reading a file by eye ------------------------------------------------

  /** Somewhere in the chain of attributes stands `op.m` or `alembic.m`. */
  predicate Names(func: Node, m: string) {
    func.Attribute? &&
    ((func.attr == m && (func.value == Name("op") || func.value == Name("alembic"))) || Names(func.value, m))
  }

  predicate Calls(n: Node, m: string) {
    n.Call? && Names(n.func, m)
  }

  predicate IsKeyword(k: Node, name: string) {
    k.Keyword? && k.arg == Some(name)
  }

  /** The first keyword of that name carries v. */
  ghost predicate Given(keywords: seq<Node>, name: string, v: Node) {
    exists i :: 0 <= i < |keywords| && IsKeyword(keywords[i], name) && keywords[i].value == v &&
                forall j :: 0 <= j < i ==> !IsKeyword(keywords[j], name)
  }

  predicate Absent(keywords: seq<Node>, name: string) {
    forall k :: k in keywords ==> !IsKeyword(k, name)
  }

  /** `nullable=False` stands there, and no `server_default` whatever. */
  ghost predicate RequiredWithoutDefault(keywords: seq<Node>) {
    Given(keywords, "nullable", Constant(Bool(false))) && Absent(keywords, "server_default")
  }

  /** The text of a literal in that place, else a question mark. */
  predicate ShownAs(args: seq<Node>, i: nat, shown: string) {
    if i < |args| && args[i].Constant? then
      match args[i].literal
      case Text(s) => shown == s
      case Number(s) => shown == s
      case Bool(b) => shown == if b then "True" else "False"
      case Null => shown == "None"
    else shown == "?"
  }

  /** The call spelled out as the column to add. */
  predicate SpelledOut(n: Node)
    requires n.Call?
  {
    |n.args| >= 2 && n.args[1].Call?
  }

  /** What is to be reported of a call, detail by detail. */
  ghost predicate Says(n: Node, kind: Kind, detail: Detail)
    requires n.Call?
  {
    match detail
    case Breaks(op, target) =>
      kind == Unsafe && (op == "drop_column" || op == "drop_table" || op == "rename_table") && Calls(n, op) &&
      ShownAs(n.args, 0, target)
    case Renames(target) =>
      kind == Unsafe && Calls(n, "alter_column") && !Absent(n.keywords, "new_column_name") && ShownAs(n.args, 0, target)
    case Tightens(target) =>
      kind == Unsafe && Calls(n, "alter_column") && Absent(n.keywords, "new_column_name") &&
      RequiredWithoutDefault(n.keywords) && ShownAs(n.args, 0, target)
    case AddsRequired(table, column) =>
      kind == Unsafe && Calls(n, "add_column") && ShownAs(n.args, 0, table) &&
      if SpelledOut(n) then RequiredWithoutDefault(n.args[1].keywords) && ShownAs(n.args[1].args, 0, column)
      else RequiredWithoutDefault(n.keywords) && column == "?"
    case UniqueIndex =>
      kind == Warning && Calls(n, "create_index") &&
      exists v :: Given(n.keywords, "unique", v) && (v.Constant? ==> v == Constant(Bool(true)))
    case UniqueConstraint => kind == Warning && Calls(n, "create_unique_constraint")
    case RawSql => kind == Warning && Calls(n, "execute")
    case _ => false
  }

  // -- the judgement is that ------------------------------------------------

  lemma {:induction false} NamesIff(func: Node, m: string)
    ensures CallNameFrom(func) == Some(m) <==> Names(func, m)
  {
    if func.Attribute? {
      if func.value.Name? && func.value.id in {"op", "alembic"} {
        assert !Names(func.value, m);
      } else {
        NamesIff(func.value, m);
      }
    }
  }

  lemma {:induction false} GivenIff(keywords: seq<Node>, name: string, v: Node)
    ensures KwValue(keywords, name) == Some(v) <==> Given(keywords, name, v)
    ensures KwValue(keywords, name) == None <==> Absent(keywords, name)
  {
    if keywords != [] {
      var rest := keywords[1..];
      GivenIff(rest, name, v);
      if IsKeyword(keywords[0], name) {
        assert keywords[0] in keywords;
      } else {
        GivenRest(keywords, name, v);
        assert forall k :: k in keywords <==> k == keywords[0] || k in rest;
      }
    }
  }

  lemma GivenRest(keywords: seq<Node>, name: string, v: Node)
    requires keywords != [] && !IsKeyword(keywords[0], name)
    ensures Given(keywords, name, v) <==> Given(keywords[1..], name, v)
  {
    var rest := keywords[1..];
    if Given(keywords, name, v) {
      var i :| 0 <= i < |keywords| && IsKeyword(keywords[i], name) && keywords[i].value == v &&
               forall j :: 0 <= j < i ==> !IsKeyword(keywords[j], name);
      assert rest[i - 1] == keywords[i];
      assert forall j :: 0 <= j < i - 1 ==> rest[j] == keywords[j + 1];
    }
    if Given(rest, name, v) {
      var i :| 0 <= i < |rest| && IsKeyword(rest[i], name) && rest[i].value == v &&
               forall j :: 0 <= j < i ==> !IsKeyword(rest[j], name);
      assert keywords[i + 1] == rest[i];
      assert forall j :: 0 < j < i + 1 ==> keywords[j] == rest[j - 1];
    }
  }

  lemma KeywordsRead(keywords: seq<Node>)
    ensures RequiredWithoutDefault(keywords) <==>
              IsFalse(KwValue(keywords, "nullable")) && !HasServerDefault(keywords)
  {
    GivenIff(keywords, "nullable", Constant(Bool(false)));
    GivenIff(keywords, "server_default", Pass);
  }

  lemma ShownIs(args: seq<Node>, shown: string)
    ensures ShownAs(args, 0, shown) <==> shown == FirstArg(args)
  {
  }

  /** One name at most stands in that place of the chain. */
  lemma NamesAreTheCallName(n: Node)
    requires n.Call?
    ensures forall m :: Calls(n, m) <==> CallName(n) == Some(m)
  {
    forall m ensures Calls(n, m) <==> CallName(n) == Some(m) {
      NamesIff(n.func, m);
    }
  }

  lemma UniqueRead(keywords: seq<Node>)
    ensures var u := KwValue(keywords, "unique");
            (u.Some? && (!u.value.Constant? || u.value.literal == Bool(true))) <==>
            exists v :: Given(keywords, "unique", v) && (v.Constant? ==> v == Constant(Bool(true)))
  {
    var u := KwValue(keywords, "unique");
    forall v ensures u == Some(v) <==> Given(keywords, "unique", v) {
      GivenIff(keywords, "unique", v);
    }
    if u.Some? { assert Given(keywords, "unique", u.value); }
  }

  lemma OnlyName(n: Node, name: string)
    requires n.Call? && CallName(n) == Some(name)
    ensures forall m :: Calls(n, m) <==> m == name
  {
    NamesAreTheCallName(n);
  }

  lemma SaysOfAlter(n: Node, kind: Kind, detail: Detail)
    requires n.Call? && forall m :: Calls(n, m) <==> m == "alter_column"
    ensures Says(n, kind, detail) <==>
              kind == Unsafe &&
              if !Absent(n.keywords, "new_column_name") then detail == Renames(FirstArg(n.args))
              else RequiredWithoutDefault(n.keywords) && detail == Tightens(FirstArg(n.args))
  {
    if detail.Renames? || detail.Tightens? { ShownIs(n.args, detail.target); }
  }

  lemma AlterRead(n: Node, kind: Kind, detail: Detail)
    requires n.Call? && CallName(n) == Some("alter_column")
    ensures Judge(n) == Some((kind, detail)) <==> Says(n, kind, detail)
  {
    OnlyName(n, "alter_column");
    SaysOfAlter(n, kind, detail);
    GivenIff(n.keywords, "new_column_name", Pass);
    KeywordsRead(n.keywords);
  }

  lemma SaysOfAdd(n: Node, kind: Kind, detail: Detail)
    requires n.Call? && forall m :: Calls(n, m) <==> m == "add_column"
    ensures Says(n, kind, detail) <==>
              kind == Unsafe && RequiredWithoutDefault(ColumnKeywords(n)) &&
              detail == AddsRequired(FirstArg(n.args), ColumnName(n.args))
  {
    if detail.AddsRequired? {
      ShownIs(n.args, detail.table);
      if SpelledOut(n) { ShownIs(n.args[1].args, detail.column); }
    }
  }

  lemma AddRead(n: Node, kind: Kind, detail: Detail)
    requires n.Call? && CallName(n) == Some("add_column")
    ensures Judge(n) == Some((kind, detail)) <==> Says(n, kind, detail)
  {
    OnlyName(n, "add_column");
    SaysOfAdd(n, kind, detail);
    KeywordsRead(ColumnKeywords(n));
  }

  lemma SaysOfDrop(n: Node, op: string, kind: Kind, detail: Detail)
    requires n.Call? && op in DANGEROUS_METHODS && forall m :: Calls(n, m) <==> m == op
    ensures Says(n, kind, detail) <==> kind == Unsafe && detail == Breaks(op, FirstArg(n.args))
  {
    if detail.Breaks? { ShownIs(n.args, detail.target); }
  }

  lemma DropRead(n: Node, kind: Kind, detail: Detail)
    requires n.Call? && CallName(n).Some? && CallName(n).value in DANGEROUS_METHODS
    ensures Judge(n) == Some((kind, detail)) <==> Says(n, kind, detail)
  {
    OnlyName(n, CallName(n).value);
    SaysOfDrop(n, CallName(n).value, kind, detail);
  }

  lemma SaysOfOther(n: Node, name: Option<string>, unique: bool, kind: Kind, detail: Detail)
    requires n.Call? && (forall m :: Calls(n, m) <==> name == Some(m))
    requires name.None? || name.value !in DANGEROUS_METHODS + {"add_column", "alter_column"}
    requires unique <==> exists v :: Given(n.keywords, "unique", v) && (v.Constant? ==> v == Constant(Bool(true)))
    ensures Says(n, kind, detail) <==>
              kind == Warning && (
              || (detail == UniqueIndex && name == Some("create_index") && unique)
              || (detail == UniqueConstraint && name == Some("create_unique_constraint"))
              || (detail == RawSql && name == Some("execute")))
  {
  }

  lemma WarningRead(n: Node, kind: Kind, detail: Detail)
    requires n.Call?
    requires CallName(n).None? || CallName(n).value !in DANGEROUS_METHODS + {"add_column", "alter_column"}
    ensures Judge(n) == Some((kind, detail)) <==> Says(n, kind, detail)
  {
    NamesAreTheCallName(n);
    UniqueRead(n.keywords);
    var u := KwValue(n.keywords, "unique");
    SaysOfOther(n, CallName(n), u.Some? && (!u.value.Constant? || u.value.literal == Bool(true)), kind, detail);
  }

  /** The gate judges a call as it is to be judged: kind, detail and what is named in it. */
  lemma JudgedAsSaid(n: Node, kind: Kind, detail: Detail)
    requires n.Call?
    ensures Judge(n) == Some((kind, detail)) <==> Says(n, kind, detail)
  {
    if CallName(n) == Some("alter_column") { AlterRead(n, kind, detail); }
    else if CallName(n) == Some("add_column") { AddRead(n, kind, detail); }
    else if CallName(n).Some? && CallName(n).value in DANGEROUS_METHODS { DropRead(n, kind, detail); }
    else { WarningRead(n, kind, detail); }
  }

  // -- overrides --------------------------------------------------------------

  /** The nearest override comment above that line is the one on line j + 1. */
  predicate NearestAbove(lines: seq<Option<string>>, line: nat, j: nat) {
    && j < |lines| && j + 1 < line && lines[j].Some?
    && forall i :: j < i < |lines| && i + 1 < line ==> lines[i].None?
  }

  ghost predicate ReasonAbove(lines: seq<Option<string>>, line: nat, reason: Option<string>) {
    exists j: nat :: NearestAbove(lines, line, j) && reason == lines[j]
  }

  /** An unsafe finding below an override is reported as overridden, with that override's reason. */
  ghost predicate Claimed(lines: seq<Option<string>>, kind: Kind, f: Finding) {
    if kind == Unsafe && OverrideAbove(lines, f.line)
    then f.kind == Overridden && ReasonAbove(lines, f.line, f.reason)
    else f.kind == kind && f.reason == None
  }

  lemma {:induction false} ClaimsAppend(a: seq<(nat, string)>, b: seq<(nat, string)>, line: nat)
    ensures Claims(a + b, line) == Claims(a, line) + Claims(b, line)
  {
    if a == [] {
      assert a + b == b;
    } else {
      assert (a + b)[1..] == a[1..] + b && (a + b)[0] == a[0];
      ClaimsAppend(a[1..], b, line);
    }
  }

  predicate NearestIn(lines: seq<Option<string>>, k: nat, line: nat, j: nat)
    requires k <= |lines|
  {
    && j < k && j + 1 < line && lines[j].Some?
    && forall i :: j < i < k && i + 1 < line ==> lines[i].None?
  }

  ghost predicate NearestHas(lines: seq<Option<string>>, k: nat, line: nat, reason: string)
    requires k <= |lines|
  {
    exists j: nat :: NearestIn(lines, k, line, j) && lines[j] == Some(reason)
  }

  /** The last override claimed among the first k lines is the nearest. */
  ghost predicate LastIsNearest(lines: seq<Option<string>>, k: nat, line: nat, claims: seq<string>)
    requires k <= |lines|
  {
    && (claims == [] <==> !OverrideIn(lines, k, line))
    && (claims != [] ==> NearestHas(lines, k, line, claims[|claims| - 1]))
  }

  lemma {:induction false} LastClaimIsNearest(lines: seq<Option<string>>, k: nat, line: nat)
    requires k <= |lines|
    ensures LastIsNearest(lines, k, line, Claims(OverridesUpTo(lines, k), line))
  {
    if k > 0 {
      LastClaimIsNearest(lines, k - 1, line);
      var before := OverridesUpTo(lines, k - 1);
      OneMoreLine(lines, k, line, Claims(before, line));
      if lines[k - 1].Some? {
        var last := [(k, lines[k - 1].value)];
        ClaimsAppend(before, last, line);
        assert Claims(last, line) == if k < line then [lines[k - 1].value] else [];
      } else {
        assert OverridesUpTo(lines, k) == before;
      }
    }
  }

  lemma OneMoreLine(lines: seq<Option<string>>, k: nat, line: nat, claims: seq<string>)
    requires 0 < k <= |lines| && LastIsNearest(lines, k - 1, line, claims)
    ensures if lines[k - 1].Some? && k < line then LastIsNearest(lines, k, line, claims + [lines[k - 1].value])
            else LastIsNearest(lines, k, line, claims)
  {
    OverrideInOneMore(lines, k, line);
    if lines[k - 1].Some? && k < line {
      assert NearestIn(lines, k, line, k - 1);
    } else {
      NearestStays(lines, k, line);
    }
  }

  lemma NearestStays(lines: seq<Option<string>>, k: nat, line: nat)
    requires 0 < k <= |lines| && (lines[k - 1].None? || k >= line)
    ensures forall reason :: NearestHas(lines, k - 1, line, reason) ==> NearestHas(lines, k, line, reason)
  {
    forall reason | NearestHas(lines, k - 1, line, reason) ensures NearestHas(lines, k, line, reason) {
      var j: nat :| NearestIn(lines, k - 1, line, j) && lines[j] == Some(reason);
      assert NearestIn(lines, k, line, j);
    }
  }

  lemma NearestIsOne(lines: seq<Option<string>>, line: nat, i: nat, j: nat)
    requires NearestAbove(lines, line, i) && NearestAbove(lines, line, j)
    ensures i == j
  {
  }

  lemma NearestReason(lines: seq<Option<string>>, line: nat, reason: string)
    requires NearestHas(lines, |lines|, line, reason)
    ensures forall r :: ReasonAbove(lines, line, r) <==> r == Some(reason)
  {
    var j: nat :| NearestIn(lines, |lines|, line, j) && lines[j] == Some(reason);
    assert NearestAbove(lines, line, j);
    forall i: nat | NearestAbove(lines, line, i) ensures i == j { NearestIsOne(lines, line, i, j); }
  }

  lemma ReportIsClaimed(lines: seq<Option<string>>, line: nat, kind: Kind, detail: Detail, f: Finding)
    requires kind != Overridden
    ensures f == Report(OverridesUpTo(lines, |lines|), line, kind, detail) <==>
            f.line == line && f.detail == detail && Claimed(lines, kind, f)
  {
    var claims := Claims(OverridesUpTo(lines, |lines|), line);
    LastClaimIsNearest(lines, |lines|, line);
    assert OverrideIn(lines, |lines|, line) <==> OverrideAbove(lines, line);
    if claims != [] {
      NearestReason(lines, line, claims[|claims| - 1]);
    }
  }

  // -- the whole report ---------------------------------------------------------

  /** The definition a name is first given. */
  ghost predicate DefinedFirst(defs: seq<FunctionDef>, name: string, def: FunctionDef) {
    exists i :: 0 <= i < |defs| && defs[i] == def && def.name == name && forall j :: 0 <= j < i ==> defs[j].name != name
  }

  lemma {:induction false} FirstDefIs(defs: seq<FunctionDef>, name: string)
    ensures FirstDef(defs, name).None? <==> forall i :: 0 <= i < |defs| ==> defs[i].name != name
    ensures forall def :: FirstDef(defs, name) == Some(def) <==> DefinedFirst(defs, name, def)
  {
    if defs != [] {
      FirstDefIs(defs[1..], name);
      forall def ensures FirstDef(defs, name) == Some(def) <==> DefinedFirst(defs, name, def) {
        DefinedFirstRest(defs, name, def);
      }
      assert forall i :: 1 <= i < |defs| ==> defs[i] == defs[1..][i - 1];
    }
  }

  lemma DefinedFirstRest(defs: seq<FunctionDef>, name: string, def: FunctionDef)
    requires defs != []
    ensures DefinedFirst(defs, name, def) <==>
            if defs[0].name == name then def == defs[0] else DefinedFirst(defs[1..], name, def)
  {
    var rest := defs[1..];
    if DefinedFirst(defs, name, def) && defs[0].name != name {
      var i :| 0 <= i < |defs| && defs[i] == def && def.name == name && forall j :: 0 <= j < i ==> defs[j].name != name;
      assert rest[i - 1] == def && forall j :: 0 <= j < i - 1 ==> rest[j] == defs[j + 1];
    }
    if DefinedFirst(rest, name, def) && defs[0].name != name {
      var i :| 0 <= i < |rest| && rest[i] == def && def.name == name && forall j :: 0 <= j < i ==> rest[j].name != name;
      assert defs[i + 1] == def && forall j :: 0 < j < i + 1 ==> defs[j] == rest[j - 1];
    }
  }

  predicate InSome(parts: seq<Node>, n: Node) {
    exists part :: part in parts && n in Subtree(part)
  }

  /** A call that is written anywhere in the definition: a default, the body or a decorator. */
  predicate WrittenIn(def: FunctionDef, n: Node) {
    n.Call? && (InSome(def.defaults, n) || InSome(def.body, n) || InSome(def.decorators, n))
  }

  lemma {:induction false} InForest(ns: seq<Node>, n: Node)
    ensures n in Forest(ns) <==> InSome(ns, n)
  {
    if ns != [] {
      InForest(ns[1..], n);
      if part :| part in ns && n in Subtree(part) {
        assert part == ns[0] || part in ns[1..];
      }
    }
  }

  lemma WrittenIsWalked(def: FunctionDef, n: Node)
    requires n.Call?
    ensures n in Subtree(DefTree(def)) <==> WrittenIn(def, n)
  {
    var parts := [Block(def.defaults)] + def.body + def.decorators;
    ForestAppend([Block(def.defaults)] + def.body, def.decorators);
    ForestAppend([Block(def.defaults)], def.body);
    assert Forest([Block(def.defaults)]) == Subtree(Block(def.defaults)) + Forest([]);
    InForest(def.defaults, n);
    InForest(def.body, n);
    InForest(def.decorators, n);
  }

  /** A statement that does something: neither `pass` nor a bare value such as a docstring. */
  predicate Effective(statement: Node) {
    !statement.Pass? && (statement.ExprStmt? ==> statement.value.Call?)
  }

  /** `downgrade` is there, and some statement in it does something. */
  ghost predicate CanGoBack(defs: seq<FunctionDef>) {
    exists def :: DefinedFirst(defs, "downgrade", def) && exists s :: s in def.body && Effective(s)
  }

  lemma BodyIsEffective(defs: seq<FunctionDef>)
    ensures HasBody(FirstDef(defs, "downgrade")) <==> CanGoBack(defs)
  {
    FirstDefIs(defs, "downgrade");
    var first := FirstDef(defs, "downgrade");
    if first.Some? {
      assert DefinedFirst(defs, "downgrade", first.value);
      forall s | s in first.value.body
        ensures Effective(s) <==> (!s.Pass? && !s.ExprStmt?) || (s.ExprStmt? && s.value.Call?)
      {
      }
    }
  }

  ghost predicate ReportedCall(lines: seq<Option<string>>, def: FunctionDef, f: Finding, n: Node, kind: Kind) {
    WrittenIn(def, n) && Says(n, kind, f.detail) && f.line == n.line && Claimed(lines, kind, f)
  }

  /** The whole report of a file, finding by finding. */
  ghost predicate Reported(source: Source, f: Finding) {
    match source
    case SyntaxError(line) => f == Finding(line, Unsafe, Unparsable, None)
    case Module(lines, defs) =>
      if forall i :: 0 <= i < |defs| ==> defs[i].name != "upgrade" then f == Finding(0, Unsafe, NoUpgrade, None)
      else
        || (!CanGoBack(defs) && f == Finding(0, Warning, NoDowngrade, None))
        || exists def, n, kind :: DefinedFirst(defs, "upgrade", def) && ReportedCall(lines, def, f, n, kind)
  }

  /** At most one thing is said of a call. */
  lemma SaidIsJudged(n: Node)
    requires n.Call?
    ensures forall kind, detail :: Says(n, kind, detail) <==> Judge(n) == Some((kind, detail))
  {
    forall kind, detail ensures Says(n, kind, detail) <==> Judge(n) == Some((kind, detail)) {
      JudgedAsSaid(n, kind, detail);
    }
  }

  lemma NodeIsReported(lines: seq<Option<string>>, def: FunctionDef, f: Finding, n: Node)
    requires WrittenIn(def, n)
    ensures f in NodeFindings(OverridesUpTo(lines, |lines|), n) <==> exists kind :: ReportedCall(lines, def, f, n, kind)
  {
    SaidIsJudged(n);
    if Judge(n).Some? {
      var kind, detail := Judge(n).value.0, Judge(n).value.1;
      ReportIsClaimed(lines, n.line, kind, detail, f);
      OnlyThatIsReported(lines, def, f, n, kind, detail);
    } else {
      forall kind ensures !ReportedCall(lines, def, f, n, kind) {
        assert !Says(n, kind, f.detail);
      }
    }
  }

  lemma OnlyThatIsReported(lines: seq<Option<string>>, def: FunctionDef, f: Finding, n: Node, kind: Kind,
                           detail: Detail)
    requires WrittenIn(def, n) && forall k, d :: Says(n, k, d) <==> k == kind && d == detail
    ensures (exists k :: ReportedCall(lines, def, f, n, k)) <==>
            f.line == n.line && f.detail == detail && Claimed(lines, kind, f)
  {
    assert Says(n, kind, detail);
    if k :| ReportedCall(lines, def, f, n, k) {
      assert Says(n, k, f.detail);
    }
    if f.line == n.line && f.detail == detail && Claimed(lines, kind, f) {
      assert ReportedCall(lines, def, f, n, kind);
    }
  }

  lemma WalkIsReported(lines: seq<Option<string>>, def: FunctionDef, f: Finding)
    ensures f in WalkFindings(OverridesUpTo(lines, |lines|), BreadthFirst([DefTree(def)])) <==>
            exists n, kind :: ReportedCall(lines, def, f, n, kind)
  {
    var overrides, visited := OverridesUpTo(lines, |lines|), BreadthFirst([DefTree(def)]);
    WalkFindingsAre(overrides, visited, f);
    forall n: Node | n.Call? ensures n in visited <==> WrittenIn(def, n) {
      WalkVisits(DefTree(def), n);
      WrittenIsWalked(def, n);
    }
    forall n | WrittenIn(def, n)
      ensures f in NodeFindings(overrides, n) <==> exists kind :: ReportedCall(lines, def, f, n, kind)
    {
      NodeIsReported(lines, def, f, n);
    }
  }

  /** A finding is in the report of a file exactly when it is due. */
  lemma ReportedIff(source: Source, f: Finding)
    ensures f in FindingsOf(source) <==> Reported(source, f)
  {
    if source.Module? {
      FirstDefIs(source.defs, "upgrade");
      var first := FirstDef(source.defs, "upgrade");
      if first.Some? {
        BodyIsEffective(source.defs);
        WalkIsReported(source.lines, first.value, f);
        assert DefinedFirst(source.defs, "upgrade", first.value);
      }
    }
  }

  // -- the exit code --------------------------------------------------------------

  /** No call in the file that an old client could not bear stands without an override above it. */
  ghost predicate Passes(source: Source, strict: bool) {
    && source.Module?
    && (exists def :: DefinedFirst(source.defs, "upgrade", def))
    && (forall def, n, detail ::
          DefinedFirst(source.defs, "upgrade", def) && WrittenIn(def, n) && Says(n, Unsafe, detail) ==>
            OverrideAbove(source.lines, n.line))
    && (strict ==>
          && CanGoBack(source.defs)
          && forall def, n, detail :: DefinedFirst(source.defs, "upgrade", def) && WrittenIn(def, n) ==>
               !Says(n, Warning, detail))
  }

  lemma {:induction false} InDirectory(sources: seq<Source>, f: Finding)
    ensures f in DirectoryFindings(sources) <==> exists s :: s in sources && f in FindingsOf(s)
  {
    if sources != [] {
      var init, last := sources[..|sources| - 1], sources[|sources| - 1];
      InDirectory(init, f);
      assert forall s :: s in sources <==> s in init || s == last;
    }
  }

  ghost predicate NoneBlocks(source: Source, strict: bool) {
    forall f :: f in FindingsOf(source) ==> f.kind != Unsafe && (strict ==> f.kind != Warning)
  }

  /** A due finding for a call, with its line, detail, kind and reason. */
  lemma CallIsReported(lines: seq<Option<string>>, def: FunctionDef, n: Node, kind: Kind, detail: Detail)
    returns (f: Finding)
    requires WrittenIn(def, n) && Says(n, kind, detail)
    ensures ReportedCall(lines, def, f, n, kind)
    ensures f.kind == if kind == Unsafe && OverrideAbove(lines, n.line) then Overridden else kind
  {
    f := Report(OverridesUpTo(lines, |lines|), n.line, kind, detail);
    ReportIsClaimed(lines, n.line, kind, detail, f);
  }

  lemma PassesMeansNoneBlocks(source: Source, strict: bool)
    requires Passes(source, strict)
    ensures NoneBlocks(source, strict)
  {
    forall f | f in FindingsOf(source) ensures f.kind != Unsafe && (strict ==> f.kind != Warning) {
      ReportedIff(source, f);
      if def, n, kind :| DefinedFirst(source.defs, "upgrade", def) && ReportedCall(source.lines, def, f, n, kind) {
        assert Says(n, kind, f.detail);
      }
    }
  }

  lemma NoneBlocksMeansPasses(source: Source, strict: bool)
    requires NoneBlocks(source, strict)
    ensures Passes(source, strict)
  {
    if !source.Module? {
      ReportedIff(source, Finding(source.line, Unsafe, Unparsable, None));
      assert false;
    }
    FirstDefIs(source.defs, "upgrade");
    ReportedIff(source, Finding(0, Unsafe, NoUpgrade, None));
    var def := FirstDef(source.defs, "upgrade").value;
    assert DefinedFirst(source.defs, "upgrade", def);
    ReportedIff(source, Finding(0, Warning, NoDowngrade, None));
    forall n, kind, detail | WrittenIn(def, n) && Says(n, kind, detail)
      ensures kind == Unsafe ==> OverrideAbove(source.lines, n.line)
      ensures strict ==> kind != Warning
    {
      var f := CallIsReported(source.lines, def, n, kind, detail);
      ReportedIff(source, f);
    }
  }

  /** The exit code, read off the files: 0 exactly for a directory with files each of which parses,
      defines `upgrade`, and has an override above every unsafe call; under `--strict` also a
      downgrade that does something, and neither raw SQL nor a unique index or constraint. */
  lemma GatePassesIff(sources: seq<Source>, strict: bool)
    ensures GatePasses(sources, strict) <==> sources != [] && forall s :: s in sources ==> Passes(s, strict)
  {
    forall f ensures f in DirectoryFindings(sources) <==> exists s :: s in sources && f in FindingsOf(s) {
      InDirectory(sources, f);
    }
    forall s | s in sources ensures NoneBlocks(s, strict) <==> Passes(s, strict) {
      if NoneBlocks(s, strict) { NoneBlocksMeansPasses(s, strict); }
      if Passes(s, strict) { PassesMeansNoneBlocks(s, strict); }
    }
  }

  /** The gate over a directory of revision files. */
  method Gate(sources: seq<Source>, strict: bool) returns (code: int)
    ensures code == 0 || code == 1
    ensures code == 0 <==> sources != [] && forall s :: s in sources ==> Passes(s, strict)
  {
    code := GateExit(sources, strict);
    GatePassesIff(sources, strict);
  }
}
