/** The rolling-deploy migration gate: a syntactic scan of `upgrade()`. */
module MigrationGate {
  import opened Prelude
  import opened PythonAst

  datatype Kind = Unsafe | Warning | Overridden

  datatype Detail =
    | Breaks(op: string, target: string)
    | Renames(target: string)
    | Tightens(target: string)
    | AddsRequired(table: string, column: string)
    | UniqueIndex
    | UniqueConstraint
    | RawSql
    | NoUpgrade
    | NoDowngrade
    | Unparsable

  datatype Finding = Finding(line: nat, kind: Kind, detail: Detail, reason: Option<string>)

  /** A function: its arguments' defaults and its decorators run when it is defined, its body
      when it is called. */
  datatype FunctionDef = FunctionDef(name: string, defaults: seq<Node>, body: seq<Node>, decorators: seq<Node>)

  /** One revision file. `lines[i]` is the reason of the override comment on line i+1, if any. */
  datatype Source =
    | SyntaxError(line: nat)
    | Module(lines: seq<Option<string>>, defs: seq<FunctionDef>)

  const DANGEROUS_METHODS := {"drop_column", "drop_table", "rename_table"}

  // -- reading one call ---------------------------------------------------

  function CallNameFrom(target: Node): Option<string> {
    if target.Attribute? then
      if target.value.Name? && target.value.id in {"op", "alembic"}
      then Some(target.attr)
      else CallNameFrom(target.value)
    else None
  }

  function CallName(n: Node): Option<string> {
    if n.Call? then CallNameFrom(n.func) else None
  }

  function KwValue(keywords: seq<Node>, name: string): Option<Node> {
    if keywords == [] then None
    else if keywords[0].Keyword? && keywords[0].arg == Some(name) then Some(keywords[0].value)
    else KwValue(keywords[1..], name)
  }

  predicate IsFalse(v: Option<Node>) {
    v.Some? && v.value == Constant(Bool(false))
  }

  /** Whatever stands behind the keyword counts, a literal `None` included. */
  predicate HasServerDefault(keywords: seq<Node>) {
    KwValue(keywords, "server_default").Some?
  }

  function LiteralText(l: Literal): string {
    match l
    case Text(s) => s
    case Bool(b) => if b then "True" else "False"
    case Null => "None"
    case Number(t) => t
  }

  function FirstArg(args: seq<Node>): string {
    if args != [] && args[0].Constant? then LiteralText(args[0].literal) else "?"
  }

  function ColumnName(args: seq<Node>): string {
    if |args| >= 2 && args[1].Call? then FirstArg(args[1].args) else "?"
  }

  /** The keywords `add_column` is judged by: those of a literal column call. */
  function ColumnKeywords(n: Node): seq<Node>
    requires n.Call?
  {
    if |n.args| >= 2 && n.args[1].Call? then n.args[1].keywords else n.keywords
  }

  /** What the scan says about one node, before overrides. */
  function Judge(n: Node): Option<(Kind, Detail)> {
    var name := CallName(n);
    if name.None? then None
    else
      var m := name.value;
      if m in DANGEROUS_METHODS then Some((Unsafe, Breaks(m, FirstArg(n.args))))
      else if m == "alter_column" then
        if KwValue(n.keywords, "new_column_name").Some? then Some((Unsafe, Renames(FirstArg(n.args))))
        else if IsFalse(KwValue(n.keywords, "nullable")) && !HasServerDefault(n.keywords)
        then Some((Unsafe, Tightens(FirstArg(n.args))))
        else None
      else if m == "add_column" then
        if IsFalse(KwValue(ColumnKeywords(n), "nullable")) && !HasServerDefault(ColumnKeywords(n))
        then Some((Unsafe, AddsRequired(FirstArg(n.args), ColumnName(n.args))))
        else None
      else if m == "create_index" then
        var u := KwValue(n.keywords, "unique");
        if u.Some? && (!u.value.Constant? || u.value.literal == Bool(true))
        then Some((Warning, UniqueIndex))
        else None
      else if m == "create_unique_constraint" then Some((Warning, UniqueConstraint))
      else if m == "execute" then Some((Warning, RawSql))
      else None
  }

  predicate Flagged(n: Node) {
    Judge(n).Some? && Judge(n).value.0 == Unsafe
  }

  // -- overrides ----------------------------------------------------------

  /** The override comments of the first `k` lines, with their line numbers. */
  function OverridesUpTo(lines: seq<Option<string>>, k: nat): seq<(nat, string)>
    requires k <= |lines|
  {
    if k == 0 then []
    else OverridesUpTo(lines, k - 1) + (if lines[k - 1].Some? then [(k, lines[k - 1].value)] else [])
  }

  /** The reasons given strictly above `line`, in file order. */
  function Claims(overrides: seq<(nat, string)>, line: nat): seq<string> {
    if overrides == [] then []
    else (if overrides[0].0 < line then [overrides[0].1] else []) + Claims(overrides[1..], line)
  }

  function Report(overrides: seq<(nat, string)>, line: nat, kind: Kind, detail: Detail): Finding {
    var claimed := Claims(overrides, line);
    if kind == Unsafe && claimed != []
    then Finding(line, Overridden, detail, Some(claimed[|claimed| - 1]))
    else Finding(line, kind, detail, None)
  }

  function NodeFindings(overrides: seq<(nat, string)>, n: Node): seq<Finding> {
    if !n.Call? || Judge(n).None? then []
    else [Report(overrides, n.line, Judge(n).value.0, Judge(n).value.1)]
  }

  function WalkFindings(overrides: seq<(nat, string)>, visited: seq<Node>): seq<Finding> {
    if visited == [] then []
    else WalkFindings(overrides, visited[..|visited| - 1]) + NodeFindings(overrides, visited[|visited| - 1])
  }

  // -- the file -----------------------------------------------------------

  /** The first definition with that name. */
  function FirstDef(defs: seq<FunctionDef>, name: string): Option<FunctionDef> {
    if defs == [] then None
    else if defs[0].name == name then Some(defs[0])
    else FirstDef(defs[1..], name)
  }

  /** What `ast.walk` is given: the arguments, the body and the decorators. */
  function DefTree(def: FunctionDef): Node {
    Block([Block(def.defaults)] + def.body + def.decorators)
  }

  predicate HasBody(def: Option<FunctionDef>) {
    def.Some? &&
    ((exists s :: s in def.value.body && !s.Pass? && !s.ExprStmt?) ||
     (exists s :: s in def.value.body && s.ExprStmt? && s.value.Call?))
  }

  function DowngradeFindings(defs: seq<FunctionDef>): seq<Finding> {
    if HasBody(FirstDef(defs, "downgrade")) then [] else [Finding(0, Warning, NoDowngrade, None)]
  }

  function FindingsOf(source: Source): seq<Finding> {
    match source
    case SyntaxError(line) => [Finding(line, Unsafe, Unparsable, None)]
    case Module(lines, defs) =>
      var upgrade := FirstDef(defs, "upgrade");
      if upgrade.None? then [Finding(0, Unsafe, NoUpgrade, None)]
      else
        WalkFindings(OverridesUpTo(lines, |lines|), BreadthFirst([DefTree(upgrade.value)]))
        + DowngradeFindings(defs)
  }

  /** Walks down the attribute chain until it meets `op.` or `alembic.`. */
  method FindCallName(n: Node) returns (name: Option<string>)
    ensures name == CallName(n)
  {
    if !n.Call? {
      return None;
    }
    var target := n.func;
    while target.Attribute?
      invariant CallNameFrom(target) == CallName(n)
      decreases target
    {
      if target.value.Name? && target.value.id in {"op", "alembic"} {
        return Some(target.attr);
      }
      target := target.value;
    }
    return None;
  }

  method CollectOverrides(lines: seq<Option<string>>) returns (overrides: seq<(nat, string)>)
    ensures overrides == OverridesUpTo(lines, |lines|)
  {
    overrides := [];
    for i := 0 to |lines|
      invariant overrides == OverridesUpTo(lines, i)
    {
      if lines[i].Some? {
        overrides := overrides + [(i + 1, lines[i].value)];
      }
    }
  }

  lemma WalkFindingsNext(overrides: seq<(nat, string)>, visited: seq<Node>, n: Node)
    ensures WalkFindings(overrides, visited + [n]) == WalkFindings(overrides, visited) + NodeFindings(overrides, n)
  {
    assert (visited + [n])[..|visited|] == visited;
  }

  method ScanUpgrade(upgrade: Node, overrides: seq<(nat, string)>) returns (findings: seq<Finding>)
    ensures findings == WalkFindings(overrides, BreadthFirst([upgrade]))
  {
    findings := [];
    var todo := [upgrade];
    ghost var visited: seq<Node> := [];
    while todo != []
      invariant visited + BreadthFirst(todo) == BreadthFirst([upgrade])
      invariant findings == WalkFindings(overrides, visited)
      decreases |Forest(todo)|
    {
      QueueShrinks(todo);
      VisitFirst(visited, todo);
      var node := todo[0];
      WalkFindingsNext(overrides, visited, node);
      todo := todo[1..] + Children(node);
      visited := visited + [node];
      var found := ScanNode(node, overrides);
      findings := findings + found;
    }
    assert visited + BreadthFirst([]) == visited;
  }

  method ScanNode(node: Node, overrides: seq<(nat, string)>) returns (findings: seq<Finding>)
    ensures findings == NodeFindings(overrides, node)
  {
    var name := FindCallName(node);
    findings := if name.Some? then NodeFindings(overrides, node) else [];
  }

  method CheckSource(source: Source) returns (findings: seq<Finding>)
    ensures findings == FindingsOf(source)
  {
    match source {
      case SyntaxError(line) =>
        return [Finding(line, Unsafe, Unparsable, None)];
      case Module(lines, defs) =>
        var upgrade := FirstDef(defs, "upgrade");
        if upgrade.None? {
          return [Finding(0, Unsafe, NoUpgrade, None)];
        }
        var overrides := CollectOverrides(lines);
        findings := ScanUpgrade(DefTree(upgrade.value), overrides);
        if !HasBody(FirstDef(defs, "downgrade")) {
          findings := findings + [Finding(0, Warning, NoDowngrade, None)];
        }
    }
  }

  // -- the directory ------------------------------------------------------

  function DirectoryFindings(sources: seq<Source>): seq<Finding> {
    if sources == [] then []
    else DirectoryFindings(sources[..|sources| - 1]) + FindingsOf(sources[|sources| - 1])
  }

  ghost predicate GatePasses(sources: seq<Source>, strict: bool) {
    && sources != []
    && forall f :: f in DirectoryFindings(sources) ==> f.kind != Unsafe && (strict ==> f.kind != Warning)
  }

  /** The exit code over every revision file: 0 lets the deploy proceed. A directory without
      one exits with 1. */
  method GateExit(sources: seq<Source>, strict: bool) returns (code: int)
    ensures code in {0, 1}
    ensures code == 0 <==> GatePasses(sources, strict)
  {
    if sources == [] {
      return 1;
    }
    var findings: seq<Finding> := [];
    for i := 0 to |sources|
      invariant findings == DirectoryFindings(sources[..i])
    {
      var found := CheckSource(sources[i]);
      assert sources[..i + 1][..i] == sources[..i];
      findings := findings + found;
    }
    assert sources[..|sources|] == sources;
    if exists f :: f in findings && f.kind == Unsafe {
      return 1;
    }
    if strict && exists f :: f in findings && f.kind == Warning {
      return 1;
    }
    return 0;
  }

  // -- what a report means ------------------------------------------------

  lemma {:induction false} ClaimsAbove(overrides: seq<(nat, string)>, line: nat)
    ensures Claims(overrides, line) != [] <==> exists i :: 0 <= i < |overrides| && overrides[i].0 < line
  {
    if overrides != [] {
      ClaimsAbove(overrides[1..], line);
      if i :| 0 <= i < |overrides| && overrides[i].0 < line {
        assert i > 0 ==> overrides[1..][i - 1] == overrides[i];
      }
    }
  }

  predicate ClaimedBelow(overrides: seq<(nat, string)>, line: nat) {
    exists i :: 0 <= i < |overrides| && overrides[i].0 < line
  }

  lemma ClaimedByOneMore(overrides: seq<(nat, string)>, last: (nat, string), line: nat)
    ensures ClaimedBelow(overrides + [last], line) <==> ClaimedBelow(overrides, line) || last.0 < line
  {
    var all := overrides + [last];
    assert all[|overrides|] == last;
    if i :| 0 <= i < |overrides| && overrides[i].0 < line { assert all[i].0 < line; }
  }

  predicate OverrideIn(lines: seq<Option<string>>, k: nat, line: nat)
    requires k <= |lines|
  {
    exists j :: 0 <= j < k && j + 1 < line && lines[j].Some?
  }

  lemma OverrideInOneMore(lines: seq<Option<string>>, k: nat, line: nat)
    requires 0 < k <= |lines|
    ensures OverrideIn(lines, k, line) <==> OverrideIn(lines, k - 1, line) || (k < line && lines[k - 1].Some?)
  {
  }

  lemma {:induction false} OverridesAreLines(lines: seq<Option<string>>, k: nat, line: nat)
    requires k <= |lines|
    ensures ClaimedBelow(OverridesUpTo(lines, k), line) <==> OverrideIn(lines, k, line)
  {
    if k > 0 {
      OverridesAreLines(lines, k - 1, line);
      OverrideInOneMore(lines, k, line);
      if lines[k - 1].Some? {
        ClaimedByOneMore(OverridesUpTo(lines, k - 1), (k, lines[k - 1].value), line);
      } else {
        assert OverridesUpTo(lines, k) == OverridesUpTo(lines, k - 1);
      }
    }
  }

  lemma {:induction false} WalkFindingsAre(overrides: seq<(nat, string)>, visited: seq<Node>, f: Finding)
    ensures f in WalkFindings(overrides, visited)
            <==> exists n :: n in visited && f in NodeFindings(overrides, n)
  {
    if visited != [] {
      var init, last := visited[..|visited| - 1], visited[|visited| - 1];
      WalkFindingsAre(overrides, init, f);
      assert visited == init + [last];
    }
  }

  predicate OverrideAbove(lines: seq<Option<string>>, line: nat) {
    exists j :: 0 <= j < |lines| && j + 1 < line && lines[j].Some?
  }

  /** A file is let through exactly when it parses, defines `upgrade`, and every unsafe call
      anywhere below `upgrade` stands under some override comment: any one, however far above. */
  lemma FileBlockedIff(source: Source)
    ensures (forall f :: f in FindingsOf(source) ==> f.kind != Unsafe) <==>
            && source.Module?
            && FirstDef(source.defs, "upgrade").Some?
            && forall n :: n in Subtree(DefTree(FirstDef(source.defs, "upgrade").value)) && Flagged(n)
                           ==> OverrideAbove(source.lines, n.line)
  {
    if source.Module? && FirstDef(source.defs, "upgrade").Some? {
      var root := DefTree(FirstDef(source.defs, "upgrade").value);
      var overrides := OverridesUpTo(source.lines, |source.lines|);
      var walked := WalkFindings(overrides, BreadthFirst([root]));
      forall f ensures f in walked <==> exists n :: n in Subtree(root) && f in NodeFindings(overrides, n) {
        WalkFindingsAre(overrides, BreadthFirst([root]), f);
        forall n { WalkVisits(root, n); }
      }
      forall n | Flagged(n)
        ensures NodeFindings(overrides, n)[0].kind == Unsafe <==> !OverrideAbove(source.lines, n.line)
        ensures NodeFindings(overrides, n)[0] in NodeFindings(overrides, n)
      {
        ClaimsAbove(overrides, n.line);
        OverridesAreLines(source.lines, |source.lines|, n.line);
      }
      assert forall f :: f in FindingsOf(source) ==> f in walked || f.kind == Warning;
      assert forall f :: f in walked ==> f in FindingsOf(source);
    } else {
      assert FindingsOf(source)[0].kind == Unsafe;
    }
  }

  lemma FlaggedIsReported(overrides: seq<(nat, string)>, root: Node, n: Node) returns (f: Finding)
    requires n in Subtree(root) && Flagged(n)
    ensures f in WalkFindings(overrides, BreadthFirst([root])) && f.kind != Warning
  {
    f := NodeFindings(overrides, n)[0];
    assert f in NodeFindings(overrides, n);
    WalkVisits(root, n);
    WalkFindingsAre(overrides, BreadthFirst([root]), f);
  }

  /** No unsafe and no overridden finding: nothing below `upgrade` was flagged. */
  lemma CleanMeansNothingFlagged(source: Source)
    requires forall f :: f in FindingsOf(source) ==> f.kind == Warning
    ensures source.Module? && FirstDef(source.defs, "upgrade").Some?
    ensures forall n :: n in Subtree(DefTree(FirstDef(source.defs, "upgrade").value)) ==> !Flagged(n)
  {
    FileBlockedIff(source);
    var root := DefTree(FirstDef(source.defs, "upgrade").value);
    forall n | n in Subtree(root) ensures !Flagged(n) {
      if Flagged(n) {
        var f := FlaggedIsReported(OverridesUpTo(source.lines, |source.lines|), root, n);
        assert false;
      }
    }
  }
}
