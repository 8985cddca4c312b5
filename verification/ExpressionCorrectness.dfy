/** Compiled filter expressions compute what direct evaluation computes. */
module ExpressionCorrectness {
  import opened Expressions
  import opened ExpressionMachine
  import opened Optional

  /** The code of `e` ends in an identifier followed only by member nodes, so that
      `optimizeIdentifiers` is still collecting a path when it gets there. */
  predicate Open(e: Expr) {
    match e
    case Identifier(_) => true
    case Member(o, _) => Open(o)
    case Index(_, i) => Open(i)
    case _ => false
  }

  /** Every computed index ends in something else than a path, every method is called on a path,
      and only constructs that have a node of their own occur. */
  predicate PathSafe(e: Expr)
    decreases e, 1
  {
    match e
    case Literal(_) => true
    case Identifier(_) => true
    case Member(o, _) => PathSafe(o)
    case Index(o, i) => PathSafe(o) && PathSafe(i) && !Open(i)
    case Unary(_, a) => PathSafe(a)
    case Binary(_, l, r) => PathSafe(l) && PathSafe(r)
    case Conditional(t, c, a) => PathSafe(t) && PathSafe(c) && PathSafe(a)
    case Call(callee, args) =>
      && PathSafeList(args)
      && (callee.Identifier? || (callee.Member? && PathSafe(callee.owner) && Open(callee.owner)))
    case _ => false
  }

  predicate PathSafeList(es: seq<Expr>)
    decreases es, 0
  {
    es == [] || (PathSafe(es[0]) && PathSafeList(es[1..]))
  }

  /** Every unary operator applied directly to a literal folds without changing its meaning. */
  predicate LiteralSafe(e: Expr)
    decreases e, 1
  {
    match e
    case Member(o, _) => LiteralSafe(o)
    case Index(o, i) => LiteralSafe(o) && LiteralSafe(i)
    case Unary(op, a) => LiteralSafe(a) && (a.Literal? ==> SafeFold(op, a.value))
    case Binary(_, l, r) => LiteralSafe(l) && LiteralSafe(r)
    case Conditional(t, c, a) => LiteralSafe(t) && LiteralSafe(c) && LiteralSafe(a)
    case Call(callee, args) => LiteralSafe(callee) && LiteralSafeList(args)
    case ArrayExpression(es) => LiteralSafeList(es)
    case _ => true
  }

  predicate LiteralSafeList(es: seq<Expr>)
    decreases es, 0
  {
    es == [] || (LiteralSafe(es[0]) && LiteralSafeList(es[1..]))
  }

  /** Property names are single identifiers, as the parser builds them. */
  predicate WellNamed(e: Expr)
    decreases e, 1
  {
    match e
    case Member(o, p) => WellNamed(o) && NoDot(p)
    case Index(o, i) => WellNamed(o) && WellNamed(i)
    case Unary(_, a) => WellNamed(a)
    case Binary(_, l, r) => WellNamed(l) && WellNamed(r)
    case Conditional(t, c, a) => WellNamed(t) && WellNamed(c) && WellNamed(a)
    case Call(callee, args) => WellNamed(callee) && WellNamedList(args)
    case ArrayExpression(es) => WellNamedList(es)
    case _ => true
  }

  predicate WellNamedList(es: seq<Expr>)
    decreases es, 0
  {
    es == [] || (WellNamed(es[0]) && WellNamedList(es[1..]))
  }

  /** The expressions the compiler translates correctly. */
  predicate Fragment(e: Expr) {
    PathSafe(e) && LiteralSafe(e)
  }

  // ---------------------------------------------------------------- what optimizeIdentifiers leaves

  function Parts(e: Expr): (r: seq<string>)
    requires PathSafe(e) && Open(e)
    ensures r != []
  {
    if e.Identifier? then [e.name] else Parts(e.owner) + [e.property]
  }

  function PathCode(e: Expr): seq<Node>
    requires PathSafe(e)
    decreases e, 1
  {
    if Open(e) then [IdentifierNode(Join(Parts(e)))]
    else
      match e
      case Literal(v) => [LiteralNode(v)]
      case Member(o, p) => PathCode(o) + [MemberNode(Some(p))]
      case Index(o, i) => PathCode(o) + PathCode(i) + [MemberNode(None)]
      case Unary(op, a) => PathCode(a) + [UnaryNode(op)]
      case Binary(op, l, r) => PathCode(r) + PathCode(l) + [BinaryNode(op)]
      case Conditional(t, c, a) => PathCode(t) + PathCode(c) + PathCode(a) + [ConditionalNode]
      case Call(callee, args) =>
        if callee.Identifier? then PathListCode(args) + [FunctionCallNode(Some(callee.name), |args|)]
        else PathListCode(args) + PathCode(callee.owner) + [MethodCallNode(Some(callee.property), |args|)]
  }

  function PathListCode(es: seq<Expr>): seq<Node>
    requires PathSafeList(es)
    decreases es, 0
  {
    if es == [] then [] else PathListCode(es[1..]) + PathCode(es[0])
  }

  predicate Starts(code: seq<Node>) {
    code != [] && (code[0].LiteralNode? || code[0].IdentifierNode? || code[0].FunctionCallNode?)
  }

  lemma {:induction false} CodeStarts(e: Expr)
    requires PathSafe(e)
    ensures Starts(Code(e)) && Starts(PathCode(e))
    decreases e, 1
  {
    match e
    case Literal(_) =>
    case Identifier(_) =>
    case Member(o, _) => CodeStarts(o);
    case Index(o, i) => CodeStarts(o);
    case Unary(_, a) => CodeStarts(a);
    case Binary(_, l, r) => CodeStarts(r);
    case Conditional(t, c, a) => CodeStarts(t);
    case Call(callee, args) =>
      ListCodeStarts(args);
      if callee.Member? {
        CodeStarts(callee.owner);
      }
  }

  lemma {:induction false} ListCodeStarts(es: seq<Expr>)
    requires PathSafeList(es)
    ensures if es == [] then ListCode(es) == PathListCode(es) == []
            else Starts(ListCode(es)) && Starts(PathListCode(es))
    decreases es, 0
  {
    if es != [] {
      CodeStarts(es[0]);
      ListCodeStarts(es[1..]);
    }
  }

  predicate NoMethodFirst(rest: seq<Node>) {
    rest == [] || !rest[0].MethodCallNode?
  }

  predicate NoMemberFirst(rest: seq<Node>) {
    rest == [] || !rest[0].MemberNode?
  }

  lemma {:induction false} OpenCode(e: Expr, rest: seq<Node>)
    requires PathSafe(e) && Open(e) && NoMethodFirst(rest)
    ensures Code(e) != [] && Code(e)[0].IdentifierNode?
    ensures TakePath([Code(e)[0].name], Code(e)[1..] + rest) == TakePath(Parts(e), rest)
  {
    if e.Identifier? {
      assert Code(e)[1..] + rest == rest;
    } else {
      var rest' := [MemberNode(Some(e.property))] + rest;
      OpenCode(e.owner, rest');
      assert Code(e)[1..] + rest == Code(e.owner)[1..] + rest';
      assert rest'[1..] == rest;
    }
  }

  lemma FoldOpenCode(e: Expr, rest: seq<Node>)
    requires PathSafe(e) && Open(e) && NoMethodFirst(rest)
    ensures FoldPaths(Code(e) + rest) ==
            var (parts, after) := TakePath(Parts(e), rest);
            [IdentifierNode(Join(parts))] + FoldPaths(after)
  {
    OpenCode(e, rest);
    assert (Code(e) + rest)[1..] == Code(e)[1..] + rest;
  }

  /** Whatever follows, the pass turns `a` into `b`; `open` says that `b` may still be growing. */
  ghost predicate Folds(a: seq<Node>, b: seq<Node>, open: bool) {
    forall rest :: NoMethodFirst(rest) && (open ==> NoMemberFirst(rest)) ==>
      FoldPaths(a + rest) == b + FoldPaths(rest)
  }

  lemma FoldsThen(a: seq<Node>, b: seq<Node>, open: bool, c: seq<Node>, d: seq<Node>, open': bool)
    requires Folds(a, b, open) && Folds(c, d, open')
    requires c != [] && !c[0].MethodCallNode? && (open ==> !c[0].MemberNode?)
    ensures Folds(a + c, b + d, open')
  {
    hide FoldPaths;
    forall rest | NoMethodFirst(rest) && (open' ==> NoMemberFirst(rest))
      ensures FoldPaths((a + c) + rest) == (b + d) + FoldPaths(rest)
    {
      var tail := c + rest;
      assert tail[0] == c[0];
      AppendAssociates(a, c, rest);
      AppendAssociates(b, d, FoldPaths(rest));
    }
  }

  lemma AppendAssociates<T>(a: seq<T>, b: seq<T>, c: seq<T>)
    ensures (a + b) + c == a + (b + c)
  {
  }

  lemma FoldsOne(node: Node)
    requires !node.IdentifierNode?
    ensures Folds([node], [node], false)
  {
    forall rest ensures FoldPaths([node] + rest) == [node] + FoldPaths(rest) {
      assert ([node] + rest)[1..] == rest;
    }
  }

  lemma FoldsNothing(open: bool)
    ensures Folds([], [], open)
  {
    forall rest ensures FoldPaths([] + rest) == [] + FoldPaths(rest) {
      assert [] + rest == rest;
    }
  }

  lemma FoldsOpen(e: Expr)
    requires PathSafe(e) && Open(e)
    ensures Folds(Code(e), PathCode(e), true)
  {
    forall rest | NoMethodFirst(rest) && NoMemberFirst(rest)
      ensures FoldPaths(Code(e) + rest) == PathCode(e) + FoldPaths(rest)
    {
      FoldOpenCode(e, rest);
    }
  }

  /** The member node that carries the method name is dropped, so the receiver is the operand. */
  lemma FoldsMethodCall(o: Expr, p: string, argc: nat)
    requires PathSafe(o) && Open(o)
    ensures Folds(Code(Member(o, p)) + [MethodCallNode(Some(p), argc)],
                  PathCode(o) + [MethodCallNode(Some(p), argc)], false)
  {
    hide FoldPaths, Code, PathCode;
    var call := MethodCallNode(Some(p), argc);
    forall rest
      ensures FoldPaths((Code(Member(o, p)) + [call]) + rest) == (PathCode(o) + [call]) + FoldPaths(rest)
    {
      CalledPath(o, p, call, rest);
    }
  }

  lemma CalledPath(o: Expr, p: string, call: Node, rest: seq<Node>)
    requires PathSafe(o) && Open(o) && call.MethodCallNode?
    ensures FoldPaths((Code(Member(o, p)) + [call]) + rest) == (PathCode(o) + [call]) + FoldPaths(rest)
  {
    var rest' := [MemberNode(Some(p)), call] + rest;
    assert (Code(Member(o, p)) + [call]) + rest == Code(o) + rest';
    FoldOpenCode(o, rest');
    assert rest'[1..] == [call] + rest;
    FoldsOne(call);
    assert ([call] + rest)[1..] == rest;
    AppendAssociates(PathCode(o), [call], FoldPaths(rest));
  }

  lemma {:induction false} FoldsCode(e: Expr)
    requires PathSafe(e)
    ensures Folds(Code(e), PathCode(e), Open(e))
    decreases e, 1
  {
    if Open(e) {
      FoldsOpen(e);
    } else {
      match e
      case Literal(v) => FoldsOne(LiteralNode(v));
      case Member(o, p) =>
        FoldsCode(o);
        FoldsWith(Code(o), PathCode(o), Open(o), MemberNode(Some(p)));
      case Index(o, i) =>
        FoldsCode2(o, i);
        FoldsWith(Code(o) + Code(i), PathCode(o) + PathCode(i), Open(i), MemberNode(None));
      case Unary(op, a) =>
        FoldsCode(a);
        FoldsWith(Code(a), PathCode(a), Open(a), UnaryNode(op));
      case Binary(op, l, r) =>
        FoldsCode2(r, l);
        FoldsWith(Code(r) + Code(l), PathCode(r) + PathCode(l), Open(l), BinaryNode(op));
      case Conditional(t, c, a) =>
        FoldsCode2(t, c);
        FoldsCode(a);
        CodeStarts(a);
        FoldsThen(Code(t) + Code(c), PathCode(t) + PathCode(c), Open(c), Code(a), PathCode(a), Open(a));
        FoldsWith(Code(t) + Code(c) + Code(a), PathCode(t) + PathCode(c) + PathCode(a), Open(a), ConditionalNode);
      case Call(callee, args) =>
        FoldsList(args);
        if callee.Identifier? {
          FoldsWith(ListCode(args), PathListCode(args), true, FunctionCallNode(Some(callee.name), |args|));
        } else {
          var o, p := callee.owner, callee.property;
          FoldsMethodCall(o, p, |args|);
          CodeStarts(o);
          var tail := [MethodCallNode(Some(p), |args|)];
          FoldsThen(ListCode(args), PathListCode(args), true, Code(callee) + tail, PathCode(o) + tail, false);
          assert Code(e) == ListCode(args) + (Code(callee) + tail);
          assert PathCode(e) == PathListCode(args) + (PathCode(o) + tail);
        }
    }
  }

  lemma FoldsWith(a: seq<Node>, b: seq<Node>, open: bool, node: Node)
    requires Folds(a, b, open) && !node.IdentifierNode? && !node.MethodCallNode? && (open ==> !node.MemberNode?)
    ensures Folds(a + [node], b + [node], false)
  {
    FoldsOne(node);
    FoldsThen(a, b, open, [node], [node], false);
  }

  lemma {:induction false} FoldsCode2(x: Expr, y: Expr)
    requires PathSafe(x) && PathSafe(y)
    ensures Folds(Code(x) + Code(y), PathCode(x) + PathCode(y), Open(y))
    decreases if x < y then y else x, 2
  {
    FoldsCode(x);
    FoldsCode(y);
    CodeStarts(y);
    FoldsThen(Code(x), PathCode(x), Open(x), Code(y), PathCode(y), Open(y));
  }

  lemma {:induction false} FoldsList(es: seq<Expr>)
    requires PathSafeList(es)
    ensures Folds(ListCode(es), PathListCode(es), true)
    decreases es, 0
  {
    if es == [] {
      FoldsNothing(true);
    } else {
      FoldsList(es[1..]);
      FoldsCode(es[0]);
      CodeStarts(es[0]);
      FoldsThen(ListCode(es[1..]), PathListCode(es[1..]), true, Code(es[0]), PathCode(es[0]), Open(es[0]));
    }
  }

  /** On path-safe trees `optimizeIdentifiers` does exactly the compositional thing. */
  lemma PathsFolded(e: Expr)
    requires PathSafe(e)
    ensures FoldPaths(Code(e)) == PathCode(e)
  {
    FoldsCode(e);
    assert Code(e) + [] == Code(e);
    assert FoldPaths(Code(e) + []) == PathCode(e) + FoldPaths([]);
  }

  // ---------------------------------------------------------------- correctness

  lemma {:induction false} PathMeans<V>(sem: Semantics<V>, e: Expr)
    requires PathLaw(sem) && PathSafe(e) && Open(e) && WellNamed(e)
    ensures sem.identifier(Join(Parts(e))) == Eval(sem, e)
  {
    if e.Member? {
      PathMeans(sem, e.owner);
      assert Front(Parts(e)) == Parts(e.owner);
      assert DotLaw(sem, Join(Parts(e.owner)), e.property);
    }
  }

  /** The code `optimizeIdentifiers` leaves pushes the value of the tree. */
  lemma {:induction false} PathCodeRuns<V>(sem: Semantics<V>, e: Expr)
    requires PathLaw(sem) && PathSafe(e) && WellNamed(e)
    ensures Run(sem, PathCode(e), []) == Some([Eval(sem, e)])
    decreases e, 1
  {
    hide Run;
    if Open(e) {
      PathMeans(sem, e);
      Run0(sem, PathCode(e)[0]);
    } else {
      match e
      case Literal(v) => Run0(sem, LiteralNode(v));
      case Member(o, p) =>
        PathCodeRuns(sem, o);
        Run1(sem, PathCode(o), Eval(sem, o), MemberNode(Some(p)));
      case Unary(op, a) =>
        PathCodeRuns(sem, a);
        Run1(sem, PathCode(a), Eval(sem, a), UnaryNode(op));
      case Index(_, _) => PathIndexRuns(sem, e);
      case Binary(_, _, _) => PathBinaryRuns(sem, e);
      case Conditional(_, _, _) => PathConditionalRuns(sem, e);
      case Call(_, _) => PathCallRuns(sem, e);
    }
  }

  lemma {:induction false} PathIndexRuns<V>(sem: Semantics<V>, e: Expr)
    requires PathLaw(sem) && PathSafe(e) && WellNamed(e) && e.Index? && !Open(e)
    ensures Run(sem, PathCode(e), []) == Some([Eval(sem, e)])
    decreases e, 0
  {
    hide Run;
    var o, i := e.owner, e.index;
    PathCodeRuns(sem, o);
    PathCodeRuns(sem, i);
    Run2(sem, PathCode(o), Eval(sem, o), PathCode(i), Eval(sem, i), MemberNode(None));
  }

  lemma {:induction false} PathBinaryRuns<V>(sem: Semantics<V>, e: Expr)
    requires PathLaw(sem) && PathSafe(e) && WellNamed(e) && e.Binary?
    ensures Run(sem, PathCode(e), []) == Some([Eval(sem, e)])
    decreases e, 0
  {
    hide Run;
    var r, l := e.right, e.left;
    PathCodeRuns(sem, r);
    PathCodeRuns(sem, l);
    Run2(sem, PathCode(r), Eval(sem, r), PathCode(l), Eval(sem, l), BinaryNode(e.op));
  }

  lemma {:induction false} PathConditionalRuns<V>(sem: Semantics<V>, e: Expr)
    requires PathLaw(sem) && PathSafe(e) && WellNamed(e) && e.Conditional?
    ensures Run(sem, PathCode(e), []) == Some([Eval(sem, e)])
    decreases e, 0
  {
    hide Run;
    var t, c, a := e.test, e.consequent, e.alternate;
    PathCodeRuns(sem, t);
    PathCodeRuns(sem, c);
    PathCodeRuns(sem, a);
    RunConditional(sem, PathCode(t), Eval(sem, t), PathCode(c), Eval(sem, c), PathCode(a), Eval(sem, a));
  }

  lemma {:induction false} PathCallRuns<V>(sem: Semantics<V>, e: Expr)
    requires PathLaw(sem) && PathSafe(e) && WellNamed(e) && e.Call?
    ensures Run(sem, PathCode(e), []) == Some([Eval(sem, e)])
    decreases e, 0
  {
    var callee, args := e.callee, e.arguments;
    var vs := EvalList(sem, args);
    PathListCodeRuns(sem, args);
    if callee.Identifier? {
      RunThen(sem, PathListCode(args), FunctionCallNode(Some(callee.name), |args|), vs);
    } else {
      var v := Eval(sem, callee.owner);
      PathCodeRuns(sem, callee.owner);
      RunMore(sem, PathListCode(args), vs, PathCode(callee.owner), v);
      RunThen(sem, PathListCode(args) + PathCode(callee.owner), MethodCallNode(Some(callee.property), |args|),
              [v] + vs);
    }
  }

  lemma {:induction false} PathListCodeRuns<V>(sem: Semantics<V>, es: seq<Expr>)
    requires PathLaw(sem) && PathSafeList(es) && WellNamedList(es)
    ensures Run(sem, PathListCode(es), []) == Some(Reverse(EvalList(sem, es)))
    decreases es, 0
  {
    if es != [] {
      PathListCodeRuns(sem, es[1..]);
      PathCodeRuns(sem, es[0]);
      RunMore(sem, PathListCode(es[1..]), EvalList(sem, es[1..]), PathCode(es[0]), Eval(sem, es[0]));
    }
  }

  // ---------------------------------------------------------------- unary operators on literals

  predicate EndsInLiteral(code: seq<Node>) {
    code != [] && Last(code).LiteralNode?
  }

  lemma UnarySafeAppend(a: seq<Node>, b: seq<Node>)
    requires EndsInLiteral(a) ==> b == [] || !b[0].UnaryNode?
    ensures UnarySafe(a + b) <==> UnarySafe(a) && UnarySafe(b)
  {
    var c := a + b;
    if UnarySafe(c) {
      forall i | 0 < i < |b| && b[i].UnaryNode? && b[i - 1].LiteralNode?
        ensures SafeFold(b[i].op, b[i - 1].value)
      {
        assert c[|a| + i] == b[i] && c[|a| + i - 1] == b[i - 1];
      }
      forall i | 0 < i < |a| && a[i].UnaryNode? && a[i - 1].LiteralNode?
        ensures SafeFold(a[i].op, a[i - 1].value)
      {
        assert c[i] == a[i] && c[i - 1] == a[i - 1];
      }
    }
  }

  lemma UnarySafeThen(a: seq<Node>, node: Node)
    requires !node.UnaryNode?
    ensures UnarySafe(a + [node]) <==> UnarySafe(a)
  {
    UnarySafeAppend(a, [node]);
  }

  lemma {:induction false} EndOfPathCode(e: Expr)
    requires PathSafe(e)
    ensures EndsInLiteral(PathCode(e)) <==> e.Literal?
  {
    CodeStarts(e);
  }

  /** In compiled code the unary nodes that follow a literal are the unary operators applied to one. */
  lemma {:induction false} UnarySafePathCode(e: Expr)
    requires PathSafe(e)
    ensures UnarySafe(PathCode(e)) <==> LiteralSafe(e)
    decreases e, 1
  {
    if Open(e) {
      OpenLiteralSafe(e);
    } else {
      match e
      case Literal(_) =>
      case Member(o, p) =>
        UnarySafePathCode(o);
        UnarySafeThen(PathCode(o), MemberNode(Some(p)));
      case Index(o, i) =>
        UnarySafePathCode2(o, i);
        UnarySafeThen(PathCode(o) + PathCode(i), MemberNode(None));
      case Unary(op, a) =>
        UnarySafePathCode(a);
        EndOfPathCode(a);
        if a.Literal? {
          assert PathCode(e) == [LiteralNode(a.value), UnaryNode(op)];
          assert UnarySafe(PathCode(e)) <==> SafeFold(PathCode(e)[1].op, PathCode(e)[0].value);
        } else {
          UnarySafeAppend(PathCode(a), [UnaryNode(op)]);
        }
      case Binary(op, l, r) =>
        UnarySafePathCode2(r, l);
        UnarySafeThen(PathCode(r) + PathCode(l), BinaryNode(op));
      case Conditional(t, c, a) =>
        UnarySafePathCode2(t, c);
        UnarySafePathCode(a);
        CodeStarts(a);
        UnarySafeAppend(PathCode(t) + PathCode(c), PathCode(a));
        UnarySafeThen(PathCode(t) + PathCode(c) + PathCode(a), ConditionalNode);
      case Call(callee, args) =>
        UnarySafePathListCode(args);
        if callee.Identifier? {
          UnarySafeThen(PathListCode(args), FunctionCallNode(Some(callee.name), |args|));
        } else {
          var o := callee.owner;
          UnarySafePathCode(o);
          CodeStarts(o);
          UnarySafeAppend(PathListCode(args), PathCode(o));
          UnarySafeThen(PathListCode(args) + PathCode(o), MethodCallNode(Some(callee.property), |args|));
        }
    }
  }

  lemma {:induction false} OpenLiteralSafe(e: Expr)
    requires PathSafe(e) && Open(e)
    ensures LiteralSafe(e)
  {
    if e.Member? {
      OpenLiteralSafe(e.owner);
    }
  }

  lemma {:induction false} UnarySafePathCode2(x: Expr, y: Expr)
    requires PathSafe(x) && PathSafe(y)
    ensures UnarySafe(PathCode(x) + PathCode(y)) <==> LiteralSafe(x) && LiteralSafe(y)
    decreases if x < y then y else x, 2
  {
    UnarySafePathCode(x);
    UnarySafePathCode(y);
    CodeStarts(y);
    UnarySafeAppend(PathCode(x), PathCode(y));
  }

  lemma {:induction false} UnarySafePathListCode(es: seq<Expr>)
    requires PathSafeList(es)
    ensures UnarySafe(PathListCode(es)) <==> LiteralSafeList(es)
    decreases es, 0
  {
    if es != [] {
      UnarySafePathListCode(es[1..]);
      UnarySafePathCode(es[0]);
      CodeStarts(es[0]);
      UnarySafeAppend(PathListCode(es[1..]), PathCode(es[0]));
    }
  }

  /** Compiler correctness: under every meaning of the constructs, and above every stack, compiled
      code pushes exactly the value of direct evaluation. */
  lemma CompileCorrect<V>(sem: Semantics<V>, e: Expr, st: seq<V>)
    requires Lawful(sem) && WellNamed(e) && Fragment(e)
    ensures Run(sem, Compile(e), st) == Some(st + [Eval(sem, e)])
  {
    PathsFolded(e);
    UnarySafePathCode(e);
    FoldUnaryPreservesRuns(sem, PathCode(e), st);
    PathCodeRuns(sem, e);
    RunFrame(sem, PathCode(e), st, []);
    assert st + [] == st;
  }
}
