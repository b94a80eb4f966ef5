/** The fragment of Python's syntax tree the migration gate looks at, and the order in
    which `ast.walk` visits it. */
module PythonAst {
  import opened Prelude

  /** A literal; `Number` keeps the text Python prints for it. */
  datatype Literal = Text(s: string) | Bool(b: bool) | Null | Number(text: string)

  /** Expressions and statements. `Block` runs its parts once, in order (assignments,
      `with` bodies, displays); `Maybe` may run each part any number of times, in any order
      (conditional expressions, comprehensions, `try`). */
  datatype Node =
    | Name(id: string)
    | Constant(literal: Literal)
    | Attribute(value: Node, attr: string)
    | Keyword(arg: Option<string>, value: Node)  // `arg` is None for `**mapping`
    | Call(func: Node, args: seq<Node>, keywords: seq<Node>, line: nat)
    | Pass
    | ExprStmt(value: Node)
    | If(test: Node, body: seq<Node>, orelse: seq<Node>)
    | Loop(head: Node, body: seq<Node>, orelse: seq<Node>)
    | Block(parts: seq<Node>)
    | Maybe(parts: seq<Node>)

  /** `ast.iter_child_nodes`. */
  function Children(n: Node): seq<Node> {
    match n
    case Name(_) | Constant(_) | Pass => []
    case Attribute(v, _) => [v]
    case Keyword(_, v) => [v]
    case ExprStmt(v) => [v]
    case Call(f, args, keywords, _) => [f] + args + keywords
    case If(t, body, orelse) => [t] + body + orelse
    case Loop(h, body, orelse) => [h] + body + orelse
    case Block(parts) => parts
    case Maybe(parts) => parts
  }

  /** Every node of the tree, parents first. */
  function Subtree(n: Node): (r: seq<Node>)
    ensures |r| > 0
    decreases n, 1
  {
    match n
    case Name(_) | Constant(_) | Pass => [n]
    case Attribute(v, _) => [n] + Subtree(v)
    case Keyword(_, v) => [n] + Subtree(v)
    case ExprStmt(v) => [n] + Subtree(v)
    case Call(f, args, keywords, _) => [n] + (Subtree(f) + (Forest(args) + Forest(keywords)))
    case If(t, body, orelse) => [n] + (Subtree(t) + (Forest(body) + Forest(orelse)))
    case Loop(h, body, orelse) => [n] + (Subtree(h) + (Forest(body) + Forest(orelse)))
    case Block(parts) => [n] + Forest(parts)
    case Maybe(parts) => [n] + Forest(parts)
  }

  function Forest(ns: seq<Node>): seq<Node>
    decreases ns, 0
  {
    if ns == [] then [] else Subtree(ns[0]) + Forest(ns[1..])
  }

  lemma {:induction false} ForestAppend(a: seq<Node>, b: seq<Node>)
    ensures Forest(a + b) == Forest(a) + Forest(b)
  {
    if a == [] {
      assert a + b == b;
    } else {
      assert (a + b)[0] == a[0] && (a + b)[1..] == a[1..] + b;
      ForestAppend(a[1..], b);
    }
  }

  lemma SubtreeUnfold(n: Node)
    ensures Subtree(n) == [n] + Forest(Children(n))
  {
    match n
    case Name(_) | Constant(_) | Pass =>
    case Attribute(v, _) => ForestOfOne(v);
    case Keyword(_, v) => ForestOfOne(v);
    case ExprStmt(v) => ForestOfOne(v);
    case Call(f, args, keywords, _) => ForestOfThree(f, args, keywords);
    case If(t, body, orelse) => ForestOfThree(t, body, orelse);
    case Loop(h, body, orelse) => ForestOfThree(h, body, orelse);
    case Block(parts) =>
    case Maybe(parts) =>
  }

  lemma ForestOfOne(n: Node)
    ensures Forest([n]) == Subtree(n)
  {
    assert Forest([n]) == Subtree(n) + Forest([]);
  }

  lemma ForestOfThree(n: Node, a: seq<Node>, b: seq<Node>)
    ensures Forest([n] + a + b) == Subtree(n) + (Forest(a) + Forest(b))
  {
    assert [n] + a + b == [n] + (a + b);
    assert ([n] + (a + b))[1..] == a + b;
    ForestAppend(a, b);
  }

  /** The order of `ast.walk`: a queue of nodes, each visit appending the node's children. */
  function BreadthFirst(todo: seq<Node>): seq<Node>
    decreases |Forest(todo)|
  {
    if todo == [] then []
    else
      assert |Forest(todo[1..] + Children(todo[0]))| < |Forest(todo)| by {
        QueueShrinks(todo);
      }
      [todo[0]] + BreadthFirst(todo[1..] + Children(todo[0]))
  }

  lemma QueueShrinks(todo: seq<Node>)
    requires todo != []
    ensures |Forest(todo)| == |Forest(todo[1..] + Children(todo[0]))| + 1
    ensures multiset(Forest(todo)) ==
            multiset{todo[0]} + multiset(Forest(todo[1..] + Children(todo[0])))
  {
    ForestAppend(todo[1..], Children(todo[0]));
    SubtreeUnfold(todo[0]);
  }

  /** Visiting the first of the queue. */
  lemma VisitFirst(visited: seq<Node>, todo: seq<Node>)
    requires todo != []
    ensures visited + BreadthFirst(todo) == (visited + [todo[0]]) + BreadthFirst(todo[1..] + Children(todo[0]))
  {
    var rest := BreadthFirst(todo[1..] + Children(todo[0]));
    assert visited + ([todo[0]] + rest) == (visited + [todo[0]]) + rest;
  }

  /** The walk misses nothing and visits nothing twice. */
  lemma {:induction false} WalkIsComplete(todo: seq<Node>)
    ensures multiset(BreadthFirst(todo)) == multiset(Forest(todo))
    decreases |Forest(todo)|
  {
    if todo != [] {
      QueueShrinks(todo);
      WalkIsComplete(todo[1..] + Children(todo[0]));
    }
  }

  lemma WalkVisits(root: Node, n: Node)
    ensures n in BreadthFirst([root]) <==> n in Subtree(root)
  {
    WalkIsComplete([root]);
    assert Forest([root]) == Subtree(root) + Forest([]);
    assert n in BreadthFirst([root]) <==> n in multiset(BreadthFirst([root]));
    assert n in Subtree(root) <==> n in multiset(Subtree(root));
  }
}
