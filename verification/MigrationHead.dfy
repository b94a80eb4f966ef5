/** The head of the migration graph in a checkout, and the check of a deployed database against it. */
module MigrationHead {
  import opened Prelude

  // -- the files ------------------------------------------------------------

  /** What `ast.literal_eval` makes of an assigned value. */
  datatype Literal = Text(s: string) | NoneLiteral | Texts(items: seq<string>) | Unusable

  /** A top-level statement: an assignment to a name, or anything else. */
  datatype Statement = Assign(name: string, value: Option<Literal>) | Otherwise

  type File = seq<Statement>

  datatype Found = Found(revisions: set<string>, referenced: set<string>)

  datatype ScanError = InvalidOrDuplicate | NotALiteral

  function TextsOf(literal: Literal): set<string> {
    match literal
    case Text(s) => {s}
    case Texts(items) => set x | x in items
    case _ => {}
  }

  /** One statement's effect on the two sets. */
  function Scan1(found: Found, s: Statement): Result<Found, ScanError> {
    if s.Otherwise? || s.value.None? || (s.name != "revision" && s.name != "down_revision") then Ok(found)
    else if s.value.value.Unusable? then Err(NotALiteral)
    else if s.name == "revision" then
      if !s.value.value.Text? || s.value.value.s in found.revisions then Err(InvalidOrDuplicate)
      else Ok(found.(revisions := found.revisions + {s.value.value.s}))
    else Ok(found.(referenced := found.referenced + TextsOf(s.value.value)))
  }

  function Scan(found: Found, file: File): Result<Found, ScanError>
    decreases |file|
  {
    if file == [] then Ok(found)
    else
      match Scan1(found, file[0])
      case Err(e) => Err(e)
      case Ok(next) => Scan(next, file[1..])
  }

  function ScanAll(found: Found, files: seq<File>): Result<Found, ScanError>
    decreases |files|
  {
    if files == [] then Ok(found)
    else
      match Scan(found, files[0])
      case Err(e) => Err(e)
      case Ok(next) => ScanAll(next, files[1..])
  }

  // -- the graph ------------------------------------------------------------

  /** Each revision with the ones it is built on. */
  type Graph = map<string, set<string>>

  /** A migration file: one revision, one down_revision. */
  datatype Migration = Migration(revision: string, down: Literal)

  predicate Usable(m: Migration) {
    !m.down.Unusable?
  }

  /** The statements that matter of a file, in either order, with others between. */
  predicate Declares(file: File, m: Migration) {
    || Relevant(file) == [Assign("revision", Some(Text(m.revision))), Assign("down_revision", Some(m.down))]
    || Relevant(file) == [Assign("down_revision", Some(m.down)), Assign("revision", Some(Text(m.revision)))]
  }

  predicate Matters(s: Statement) {
    s.Assign? && s.value.Some? && (s.name == "revision" || s.name == "down_revision")
  }

  function Relevant(file: File): File {
    if file == [] then [] else (if Matters(file[0]) then [file[0]] else []) + Relevant(file[1..])
  }

  predicate DeclareAll(files: seq<File>, migrations: seq<Migration>) {
    && |files| == |migrations|
    && (forall i :: 0 <= i < |files| ==> Declares(files[i], migrations[i]) && Usable(migrations[i]))
    && (forall i, j :: 0 <= i < j < |files| ==> migrations[i].revision != migrations[j].revision)
  }

  function GraphOf(migrations: seq<Migration>): Graph
    decreases |migrations|
  {
    if migrations == [] then map[]
    else
      var last := migrations[|migrations| - 1];
      GraphOf(migrations[..|migrations| - 1])[last.revision := TextsOf(last.down)]
  }

  function Referenced(g: Graph): set<string> {
    set r, d | r in g && d in g[r] :: d
  }

  function Heads(g: Graph): set<string> {
    g.Keys - Referenced(g)
  }

  /** p[0] is built on p[1], that on p[2], and so on. */
  predicate Path(g: Graph, p: seq<string>) {
    && p != []
    && (forall i :: 0 <= i < |p| - 1 ==> p[i] in g && p[i + 1] in g[p[i]])
  }

  ghost predicate Acyclic(g: Graph) {
    forall p: seq<string> :: Path(g, p) && |p| > 1 ==> p[0] != p[|p| - 1]
  }

  ghost predicate Ancestor(g: Graph, r: string, h: string) {
    exists p :: Path(g, p) && p[0] == h && p[|p| - 1] == r
  }

  predicate AllDistinct(p: seq<string>) {
    forall i, j :: 0 <= i < j < |p| ==> p[i] != p[j]
  }

  lemma PathIsDistinct(g: Graph, p: seq<string>)
    requires Acyclic(g) && Path(g, p)
    ensures AllDistinct(p)
  {
    forall i, j | 0 <= i < j < |p| ensures p[i] != p[j] {
      assert Path(g, p[i..j + 1]);
    }
  }

  lemma {:induction false} DistinctCount(p: seq<string>, all: set<string>)
    requires AllDistinct(p) && forall x :: x in p ==> x in all
    ensures |p| <= |all|
    decreases |p|
  {
    if p != [] {
      DistinctCount(p[1..], all - {p[0]});
    }
  }

  lemma OnGraph(g: Graph, p: seq<string>)
    requires Path(g, p) && p[|p| - 1] in g
    ensures forall x :: x in p ==> x in g.Keys
  {
  }

  /** Upwards from any revision, along the ones built on it, there is a head. */
  lemma {:induction false} ClimbsToHead(g: Graph, p: seq<string>) returns (up: seq<string>)
    requires Acyclic(g) && Path(g, p) && p[|p| - 1] in g
    ensures Path(g, up) && up[0] in Heads(g) && up[|up| - 1] == p[|p| - 1]
    decreases |g| - |p|
  {
    PathIsDistinct(g, p);
    OnGraph(g, p);
    DistinctCount(p, g.Keys);
    if p[0] in Heads(g) {
      up := p;
    } else {
      var r :| r in g && p[0] in g[r];
      var longer := [r] + p;
      assert Path(g, longer);
      PathIsDistinct(g, longer);
      OnGraph(g, longer);
      DistinctCount(longer, g.Keys);
      up := ClimbsToHead(g, longer);
    }
  }

  /** Every revision of an acyclic graph is an ancestor of some head. */
  lemma EveryRevisionHasAHead(g: Graph, r: string) returns (h: string)
    requires Acyclic(g) && r in g
    ensures h in Heads(g) && Ancestor(g, r, h)
  {
    assert Path(g, [r]);
    var up := ClimbsToHead(g, [r]);
    h := up[0];
  }

  /** So there is a head if there is a revision, and a single head has every revision, whatever
      the branches and merges, among its ancestors. */
  lemma HeadsCoverTheGraph(g: Graph)
    requires Acyclic(g) && g != map[]
    ensures Heads(g) != {}
    ensures forall h :: Heads(g) == {h} ==> forall r :: r in g ==> Ancestor(g, r, h)
  {
    var r0 :| r0 in g;
    var h0 := EveryRevisionHasAHead(g, r0);
    forall h | Heads(g) == {h}
      ensures forall r :: r in g ==> Ancestor(g, r, h)
    {
      forall r | r in g ensures Ancestor(g, r, h) {
        var head := EveryRevisionHasAHead(g, r);
        assert head == h;
      }
    }
  }

  // -- what the scan finds --------------------------------------------------

  lemma {:induction false} OnlyRelevantCounts(found: Found, file: File)
    ensures Scan(found, file) == Scan(found, Relevant(file))
    decreases |file|
  {
    if file != [] {
      var kept := Relevant(file[1..]);
      if Matters(file[0]) {
        assert ([file[0]] + kept)[1..] == kept;
        if Scan1(found, file[0]).Ok? { OnlyRelevantCounts(Scan1(found, file[0]).value, file[1..]); }
      } else {
        assert [] + kept == kept;
        OnlyRelevantCounts(found, file[1..]);
      }
    }
  }

  lemma ScanOne(found: Found, b: Statement)
    ensures Scan(found, [b]) == Scan1(found, b)
  {
    assert [b][1..] == [] && [b][0] == b;
    if Scan1(found, b).Ok? {
      assert Scan(Scan1(found, b).value, []) == Scan1(found, b);
    }
  }

  lemma ScanTwo(found: Found, a: Statement, b: Statement)
    ensures Scan(found, [a, b]) ==
            match Scan1(found, a)
            case Err(e) => Err(e)
            case Ok(next) => Scan1(next, b)
  {
    assert [a, b][1..] == [b] && [a, b][0] == a;
    if Scan1(found, a).Ok? {
      var next := Scan1(found, a).value;
      assert Scan(found, [a, b]) == Scan(next, [b]);
      ScanOne(next, b);
    }
  }

  lemma ScanDeclares(found: Found, file: File, m: Migration)
    requires Declares(file, m) && Usable(m) && m.revision !in found.revisions
    ensures Scan(found, file) == Ok(Found(found.revisions + {m.revision}, found.referenced + TextsOf(m.down)))
  {
    OnlyRelevantCounts(found, file);
    assert |"revision"| != |"down_revision"|;
    var a, b := Assign("revision", Some(Text(m.revision))), Assign("down_revision", Some(m.down));
    ScanTwo(found, a, b);
    ScanTwo(found, b, a);
  }

  lemma {:induction false} ScanAllSnoc(found: Found, files: seq<File>, last: File)
    ensures ScanAll(found, files + [last]) ==
            match ScanAll(found, files)
            case Err(e) => Err(e)
            case Ok(next) => Scan(next, last)
    decreases |files|
  {
    if files == [] {
      assert files + [last] == [last] && [last][1..] == [];
    } else {
      assert (files + [last])[1..] == files[1..] + [last];
      if Scan(found, files[0]).Ok? { ScanAllSnoc(Scan(found, files[0]).value, files[1..], last); }
    }
  }

  lemma GraphGrows(g: Graph, r: string, downs: set<string>)
    requires r !in g
    ensures g[r := downs].Keys == g.Keys + {r}
    ensures Referenced(g[r := downs]) == Referenced(g) + downs
  {
    var more := g[r := downs];
    forall d | d in Referenced(g) + downs ensures d in Referenced(more) {
      if d in downs {
        assert r in more && d in more[r];
      } else {
        var x :| x in g && d in g[x];
        assert x in more && d in more[x];
      }
    }
  }

  ghost predicate Among(migrations: seq<Migration>, r: string) {
    exists i :: 0 <= i < |migrations| && migrations[i].revision == r
  }

  lemma {:induction false} GraphKeys(migrations: seq<Migration>, r: string)
    ensures r in GraphOf(migrations) <==> Among(migrations, r)
    decreases |migrations|
  {
    if migrations != [] {
      var n := |migrations| - 1;
      GraphKeys(migrations[..n], r);
      if Among(migrations[..n], r) {
        var i :| 0 <= i < n && migrations[..n][i].revision == r;
        assert migrations[i].revision == r;
      }
      if Among(migrations, r) {
        var i :| 0 <= i < |migrations| && migrations[i].revision == r;
        if i < n { assert migrations[..n][i].revision == r; }
      }
    }
  }

  lemma DeclareFirst(files: seq<File>, migrations: seq<Migration>)
    requires DeclareAll(files, migrations) && files != []
    ensures DeclareAll(files[..|files| - 1], migrations[..|files| - 1])
    ensures migrations[|files| - 1].revision !in GraphOf(migrations[..|files| - 1])
  {
    GraphKeys(migrations[..|files| - 1], migrations[|files| - 1].revision);
  }

  ghost predicate ScansTo(files: seq<File>, g: Graph) {
    ScanAll(Found({}, {}), files) == Ok(Found(g.Keys, Referenced(g)))
  }

  lemma ScanGrows(files: seq<File>, last: File, g: Graph, m: Migration)
    requires ScansTo(files, g) && Declares(last, m) && Usable(m) && m.revision !in g
    ensures ScansTo(files + [last], g[m.revision := TextsOf(m.down)])
  {
    ScanAllSnoc(Found({}, {}), files, last);
    ScanDeclares(Found(g.Keys, Referenced(g)), last, m);
    GraphGrows(g, m.revision, TextsOf(m.down));
  }

  lemma NothingScans()
    ensures ScansTo([], map[])
  {
    var g: Graph := map[];
    assert g.Keys == {} && Referenced(g) == {};
  }

  /** The two sets filled by the scan are the graph's revisions and the ones built upon. */
  lemma {:induction false} ScanFindsGraph(files: seq<File>, migrations: seq<Migration>)
    requires DeclareAll(files, migrations)
    ensures ScansTo(files, GraphOf(migrations))
    decreases |files|
  {
    if files == [] {
      NothingScans();
    } else {
      var n := |files| - 1;
      DeclareFirst(files, migrations);
      ScanFindsGraph(files[..n], migrations[..n]);
      assert files == files[..n] + [files[n]];
      ScanGrows(files[..n], files[n], GraphOf(migrations[..n]), migrations[n]);
    }
  }

  // -- the check ------------------------------------------------------------

  function Joined(parts: seq<string>): string {
    if parts == [] then ""
    else if |parts| == 1 then parts[0]
    else parts[0] + "," + Joined(parts[1..])
  }

  // -- said of the statements ---------------------------------------------------

  predicate Assigns(s: Statement, name: string) {
    s.Assign? && s.name == name && s.value.Some?
  }

  /** `revision = "r"`. */
  predicate SetsRevision(s: Statement, r: string) {
    Assigns(s, "revision") && s.value.value == Text(r)
  }

  /** `down_revision = "r"`, or a tuple or list with r in it. */
  predicate RefersTo(s: Statement, r: string) {
    Assigns(s, "down_revision") && (s.value.value == Text(r) || (s.value.value.Texts? && r in s.value.value.items))
  }

  /** The two names hold literals, and each revision is a text that no statement before set. */
  predicate Sound(known: set<string>, file: File) {
    && (forall i :: 0 <= i < |file| && (Assigns(file[i], "revision") || Assigns(file[i], "down_revision")) ==>
          !file[i].value.value.Unusable?)
    && (forall i :: 0 <= i < |file| && Assigns(file[i], "revision") ==>
          file[i].value.value.Text? && file[i].value.value.s !in known &&
          forall j :: 0 <= j < i ==> !SetsRevision(file[j], file[i].value.value.s))
  }

  ghost predicate SomeSets(file: File, r: string) {
    exists i :: 0 <= i < |file| && SetsRevision(file[i], r)
  }

  ghost predicate SomeRefers(file: File, r: string) {
    exists i :: 0 <= i < |file| && RefersTo(file[i], r)
  }

  lemma SomeRest(file: File, r: string)
    requires file != []
    ensures SomeSets(file, r) <==> SetsRevision(file[0], r) || SomeSets(file[1..], r)
    ensures SomeRefers(file, r) <==> RefersTo(file[0], r) || SomeRefers(file[1..], r)
  {
    var rest := file[1..];
    assert forall i :: 0 <= i < |rest| ==> rest[i] == file[i + 1];
    if i :| 0 <= i < |file| && SetsRevision(file[i], r) { assert i > 0 ==> rest[i - 1] == file[i]; }
    if i :| 0 <= i < |file| && RefersTo(file[i], r) { assert i > 0 ==> rest[i - 1] == file[i]; }
  }

  lemma Scan1Is(found: Found, s: Statement)
    ensures Scan1(found, s).Ok? <==>
              && (Assigns(s, "revision") || Assigns(s, "down_revision") ==> !s.value.value.Unusable?)
              && (Assigns(s, "revision") ==> s.value.value.Text? && s.value.value.s !in found.revisions)
    ensures Scan1(found, s).Ok? ==>
              && (forall r :: r in Scan1(found, s).value.revisions <==> r in found.revisions || SetsRevision(s, r))
              && (forall r :: r in Scan1(found, s).value.referenced <==> r in found.referenced || RefersTo(s, r))
  {
    assert |"revision"| != |"down_revision"|;
  }

  lemma SoundRest(known: set<string>, next: set<string>, file: File)
    requires file != [] && forall r :: r in next <==> r in known || SetsRevision(file[0], r)
    requires Assigns(file[0], "revision") || Assigns(file[0], "down_revision") ==> !file[0].value.value.Unusable?
    requires Assigns(file[0], "revision") ==> file[0].value.value.Text? && file[0].value.value.s !in known
    ensures Sound(known, file) <==> Sound(next, file[1..])
  {
    var rest := file[1..];
    assert forall i :: 0 <= i < |rest| ==> rest[i] == file[i + 1];
    assert forall i :: 0 < i < |file| ==> file[i] == rest[i - 1];
  }

  /** The scan of one list of statements: when it goes through, and what it finds. */
  lemma {:induction false} ScanIs(found: Found, file: File)
    ensures Scan(found, file).Ok? <==> Sound(found.revisions, file)
    ensures Scan(found, file).Ok? ==>
              && (forall r :: r in Scan(found, file).value.revisions <==> r in found.revisions || SomeSets(file, r))
              && (forall r :: r in Scan(found, file).value.referenced <==> r in found.referenced || SomeRefers(file, r))
    decreases |file|
  {
    if file != [] {
      Scan1Is(found, file[0]);
      forall r {
        SomeRest(file, r);
      }
      if Scan1(found, file[0]).Ok? {
        var next := Scan1(found, file[0]).value;
        SoundRest(found.revisions, next.revisions, file);
        ScanIs(next, file[1..]);
      }
    }
  }

  function Statements(files: seq<File>): File {
    if files == [] then [] else files[0] + Statements(files[1..])
  }

  lemma {:induction false} ScanAppend(found: Found, a: File, b: File)
    ensures Scan(found, a + b) ==
            match Scan(found, a)
            case Err(e) => Err(e)
            case Ok(next) => Scan(next, b)
    decreases |a|
  {
    if a == [] {
      assert a + b == b;
    } else {
      assert (a + b)[1..] == a[1..] + b && (a + b)[0] == a[0];
      if Scan1(found, a[0]).Ok? { ScanAppend(Scan1(found, a[0]).value, a[1..], b); }
    }
  }

  lemma {:induction false} ScanAllIsScan(found: Found, files: seq<File>)
    ensures ScanAll(found, files) == Scan(found, Statements(files))
    decreases |files|
  {
    if files != [] {
      ScanAppend(found, files[0], Statements(files[1..]));
      if Scan(found, files[0]).Ok? { ScanAllIsScan(Scan(found, files[0]).value, files[1..]); }
    }
  }

  /** Over all files, in any layout: the scan goes through exactly when the two names hold literals
      and every revision is a text of its own; the heads are then what some file sets as its
      revision and none refers to. */
  lemma HeadsAre(files: seq<File>)
    ensures ScanAll(Found({}, {}), files).Ok? <==> Sound({}, Statements(files))
    ensures ScanAll(Found({}, {}), files).Ok? ==>
              var found := ScanAll(Found({}, {}), files).value;
              forall r :: r in found.revisions - found.referenced <==>
                SomeSets(Statements(files), r) && !SomeRefers(Statements(files), r)
  {
    ScanAllIsScan(Found({}, {}), files);
    ScanIs(Found({}, {}), Statements(files));
  }

  /** However `sorted` orders a set. */
  ghost predicate Arranges(arrange: set<string> -> seq<string>) {
    forall s :: (forall x :: x in arrange(s) <==> x in s) && |arrange(s)| == |s|
  }

  /** The text the release expects of the database. */
  function HeadText(found: Found, arrange: set<string> -> seq<string>): string {
    Joined(arrange(found.revisions - found.referenced))
  }

  predicate Accepts(expected: string, rows: seq<string>) {
    expected != "" && ',' !in expected && Joined(rows) == expected
  }

  lemma TwoHaveComma(parts: seq<string>)
    requires |parts| > 1
    ensures ',' in Joined(parts)
  {
    assert Joined(parts)[|parts[0]|] == ',';
  }

  /** An expected head is met exactly by a database that holds that revision alone. */
  lemma AcceptsIff(expected: string, rows: seq<string>)
    ensures Accepts(expected, rows) <==> expected != "" && ',' !in expected && rows == [expected]
  {
    if |rows| > 1 { TwoHaveComma(rows); }
  }

  lemma HeadTextIff(found: Found, arrange: set<string> -> seq<string>, text: string)
    requires Arranges(arrange) && text != "" && ',' !in text
    ensures HeadText(found, arrange) == text <==> found.revisions - found.referenced == {text}
  {
    var heads := found.revisions - found.referenced;
    var parts := arrange(heads);
    if |parts| > 1 {
      TwoHaveComma(parts);
      assert heads != {text} by { assert |{text}| == 1; }
    } else if |parts| == 1 {
      assert parts[0] in parts && parts[0] in heads;
      assert heads == {parts[0]} by {
        forall x | x in heads ensures x == parts[0] { assert x in parts; }
      }
    }
  }

  /** The check of a release's own head passes exactly when the graph has one head, with a name
      that is not empty and holds no comma, and the database holds that revision alone. */
  lemma CheckPassesIff(g: Graph, arrange: set<string> -> seq<string>, rows: seq<string>)
    requires Arranges(arrange)
    ensures Accepts(HeadText(Found(g.Keys, Referenced(g)), arrange), rows) <==>
            exists h :: Heads(g) == {h} && h != "" && ',' !in h && rows == [h]
  {
    var found := Found(g.Keys, Referenced(g));
    var expected := HeadText(found, arrange);
    AcceptsIff(expected, rows);
    if expected != "" && ',' !in expected { HeadTextIff(found, arrange, expected); }
    if exists h :: Heads(g) == {h} && h != "" && ',' !in h && rows == [h] {
      var h :| Heads(g) == {h} && h != "" && ',' !in h && rows == [h];
      HeadTextIff(found, arrange, h);
    }
  }

  /** And then every migration of the release is an ancestor of what the database holds. */
  lemma PassedMeansEverythingApplied(files: seq<File>, migrations: seq<Migration>, arrange: set<string> -> seq<string>,
                                     rows: seq<string>)
    requires DeclareAll(files, migrations) && Acyclic(GraphOf(migrations)) && Arranges(arrange)
    requires ScanAll(Found({}, {}), files).Ok?
    requires Accepts(HeadText(ScanAll(Found({}, {}), files).value, arrange), rows)
    ensures |rows| == 1
    ensures forall i :: 0 <= i < |migrations| ==> Ancestor(GraphOf(migrations), migrations[i].revision, rows[0])
  {
    var g := GraphOf(migrations);
    ScanFindsGraph(files, migrations);
    CheckPassesIff(g, arrange, rows);
    var h :| Heads(g) == {h} && rows == [h];
    assert h in g;
    HeadsCoverTheGraph(g);
    forall i | 0 <= i < |migrations| ensures Ancestor(g, migrations[i].revision, h) {
      GraphKeys(migrations, migrations[i].revision);
    }
  }

  // -- the loops ------------------------------------------------------------

  function Rest(found: Found, file: File, files: seq<File>): Result<Found, ScanError> {
    match Scan(found, file)
    case Err(e) => Err(e)
    case Ok(next) => ScanAll(next, files)
  }

  /** `repo_head_revision`: fills the two sets file by file, statement by statement. */
  method RepoHeadRevision(files: seq<File>, arrange: set<string> -> seq<string>) returns (r: Result<string, ScanError>)
    ensures r == match ScanAll(Found({}, {}), files)
                 case Err(e) => Err(e)
                 case Ok(found) => Ok(HeadText(found, arrange))
  {
    var revisions, referenced: set<string> := {}, {};
    for i := 0 to |files|
      invariant ScanAll(Found(revisions, referenced), files[i..]) == ScanAll(Found({}, {}), files)
    {
      var file := files[i];
      assert files[i..][1..] == files[i + 1..];
      for j := 0 to |file|
        invariant Rest(Found(revisions, referenced), file[j..], files[i + 1..]) == ScanAll(Found({}, {}), files)
      {
        var node := file[j];
        assert file[j..][1..] == file[j + 1..] && file[j..][0] == node;
        if node.Otherwise? || node.value.None? || (node.name != "revision" && node.name != "down_revision") {
          continue;
        }
        var literal := node.value.value;
        if literal.Unusable? {
          return Err(NotALiteral);
        }
        if node.name == "revision" {
          if !literal.Text? || literal.s in revisions {
            return Err(InvalidOrDuplicate);
          }
          revisions := revisions + {literal.s};
        } else {
          referenced := referenced + TextsOf(literal);
        }
      }
      assert file[|file|..] == [];
    }
    assert files[|files|..] == [];
    r := Ok(HeadText(Found(revisions, referenced), arrange));
  }
}
