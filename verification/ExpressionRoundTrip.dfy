/** Reading flattened code back with the pop orders of `toInfix` rebuilds the tree. */
module ExpressionRoundTrip {
  import opened Expressions
  import opened ExpressionMachine
  import opened Optional

  /** Only constructs with a node of their own, and no method calls. */
  predicate Plain(e: Expr)
    decreases e, 1
  {
    match e
    case Literal(_) => true
    case Identifier(_) => true
    case Member(o, _) => Plain(o)
    case Index(o, i) => Plain(o) && Plain(i)
    case Unary(_, a) => Plain(a)
    case Binary(_, l, r) => Plain(l) && Plain(r)
    case Conditional(t, c, a) => Plain(t) && Plain(c) && Plain(a)
    case Call(callee, args) => callee.Identifier? && PlainList(args)
    case _ => false
  }

  predicate PlainList(es: seq<Expr>)
    decreases es, 0
  {
    es == [] || (Plain(es[0]) && PlainList(es[1..]))
  }

  /** Raw code pushes the value of the tree, whatever the constructs mean. */
  lemma {:induction false} CodeRuns<V>(sem: Semantics<V>, e: Expr)
    requires Plain(e)
    ensures Run(sem, Code(e), []) == Some([Eval(sem, e)])
    decreases e, 1
  {
    hide Run;
    match e
    case Literal(v) => Run0(sem, LiteralNode(v));
    case Identifier(name) => Run0(sem, IdentifierNode(name));
    case Member(o, p) =>
      CodeRuns(sem, o);
      Run1(sem, Code(o), Eval(sem, o), MemberNode(Some(p)));
    case Unary(op, a) =>
      CodeRuns(sem, a);
      Run1(sem, Code(a), Eval(sem, a), UnaryNode(op));
    case Index(_, _) => IndexRuns(sem, e);
    case Binary(_, _, _) => BinaryRuns(sem, e);
    case Conditional(_, _, _) => ConditionalRuns(sem, e);
    case Call(callee, args) =>
      ListCodeRuns(sem, args);
      RunThen(sem, ListCode(args), FunctionCallNode(Some(callee.name), |args|), EvalList(sem, args));
  }

  lemma {:induction false} IndexRuns<V>(sem: Semantics<V>, e: Expr)
    requires Plain(e) && e.Index?
    ensures Run(sem, Code(e), []) == Some([Eval(sem, e)])
    decreases e, 0
  {
    hide Run;
    var o, i := e.owner, e.index;
    CodeRuns(sem, o);
    CodeRuns(sem, i);
    Run2(sem, Code(o), Eval(sem, o), Code(i), Eval(sem, i), MemberNode(None));
  }

  lemma {:induction false} BinaryRuns<V>(sem: Semantics<V>, e: Expr)
    requires Plain(e) && e.Binary?
    ensures Run(sem, Code(e), []) == Some([Eval(sem, e)])
    decreases e, 0
  {
    hide Run;
    var r, l := e.right, e.left;
    CodeRuns(sem, r);
    CodeRuns(sem, l);
    Run2(sem, Code(r), Eval(sem, r), Code(l), Eval(sem, l), BinaryNode(e.op));
  }

  lemma {:induction false} ConditionalRuns<V>(sem: Semantics<V>, e: Expr)
    requires Plain(e) && e.Conditional?
    ensures Run(sem, Code(e), []) == Some([Eval(sem, e)])
    decreases e, 0
  {
    hide Run;
    var t, c, a := e.test, e.consequent, e.alternate;
    CodeRuns(sem, t);
    CodeRuns(sem, c);
    CodeRuns(sem, a);
    RunConditional(sem, Code(t), Eval(sem, t), Code(c), Eval(sem, c), Code(a), Eval(sem, a));
  }

  lemma {:induction false} ListCodeRuns<V>(sem: Semantics<V>, es: seq<Expr>)
    requires PlainList(es)
    ensures Run(sem, ListCode(es), []) == Some(Reverse(EvalList(sem, es)))
    decreases es, 0
  {
    if es != [] {
      ListCodeRuns(sem, es[1..]);
      CodeRuns(sem, es[0]);
      RunMore(sem, ListCode(es[1..]), EvalList(sem, es[1..]), Code(es[0]), Eval(sem, es[0]));
    }
  }

  // ---------------------------------------------------------------- trees as values

  /** Every construct builds its own tree; an operator with a wrong number of operands, which
      neither evaluation nor the machine asks for, builds `This`. */
  function Build1(op: Op, a: Expr): Expr {
    match op
    case MemberOf(p) => Member(a, p)
    case UnaryOf(op) => Unary(op, a)
    case _ => This
  }

  function Build2(op: Op, a: Expr, b: Expr): Expr {
    match op
    case IndexOf => Index(a, b)
    case BinaryOf(op) => Binary(op, a, b)
    case _ => This
  }

  function Build(op: Op, args: seq<Expr>): Expr {
    match op
    case CallOf(f) => Call(Identifier(f), args)
    case InvokeAt => if |args| > 1 then Call(Index(args[0], args[1]), args[2..]) else This
    case Invoke => if |args| > 0 then Call(args[0], args[1..]) else This
    case ListOf => ArrayExpression(args)
    case _ => This
  }

  function Trees(): Semantics<Expr> {
    Semantics(
      v => Literal(v),
      name => Identifier(name),
      (op, a) => Build1(op, a),
      (op, a, b) => Build2(op, a, b),
      (t, c, a) => Conditional(t, c, a),
      (p, o, args) => Call(Member(o, p), args),
      (op, args) => Build(op, args))
  }

  lemma {:induction false} TreesRebuild(e: Expr)
    requires Plain(e)
    ensures Eval(Trees(), e) == e
    decreases e, 1
  {
    match e
    case Literal(_) =>
    case Identifier(_) =>
    case Member(o, _) => TreesRebuild(o);
    case Index(o, i) => TreesRebuild(o); TreesRebuild(i);
    case Unary(_, a) => TreesRebuild(a);
    case Binary(_, l, r) => TreesRebuild(l); TreesRebuild(r);
    case Conditional(t, c, a) => TreesRebuild(t); TreesRebuild(c); TreesRebuild(a);
    case Call(_, args) => TreesRebuildList(args);
  }

  lemma {:induction false} TreesRebuildList(es: seq<Expr>)
    requires PlainList(es)
    ensures EvalList(Trees(), es) == es
    decreases es, 0
  {
    if es != [] {
      TreesRebuild(es[0]);
      TreesRebuildList(es[1..]);
    }
  }

  /** One turn of the outer loop of `toInfix`, seen from index `i`. */
  lemma RunAt(tokens: seq<Node>, i: nat, st: seq<Expr>)
    requires i <= |tokens|
    ensures Run(Trees(), tokens[i..], st) ==
            if i == |tokens| then Some(st)
            else if |st| < Arity(tokens[i]) then None
            else Run(Trees(), tokens[i + 1..],
                     Put(st, Arity(tokens[i]), Result(Trees(), tokens[i], Popped(st, Arity(tokens[i])))))
  {
    if i < |tokens| {
      assert tokens[i..][1..] == tokens[i + 1..];
    }
  }

  /** Popping `n` times collects the `n` topmost values, the top one first. */
  method Pop(st: seq<Expr>, n: nat) returns (args: seq<Expr>, below: seq<Expr>)
    requires n <= |st|
    ensures args == Popped(st, n) && below == st[..|st| - n]
  {
    args, below := [], st;
    while |args| < n
      invariant |args| <= n
      invariant below == st[..|st| - |args|]
      invariant args == Popped(st, |args|)
    {
      assert st[|below| - 1..][1..] == st[|below|..];
      ReverseSplit(st[|below| - 1..]);
      args := args + [Last(below)];
      below := Front(below);
    }
  }

  /** The loop of `toInfix`, pushing trees where it pushes strings. */
  method ReadBack(tokens: seq<Node>) returns (res: Option<seq<Expr>>)
    ensures res == Run(Trees(), tokens, [])
  {
    hide Run, Result;
    var st: seq<Expr> := [];
    var i := 0;
    assert tokens[0..] == tokens;
    while i < |tokens|
      invariant 0 <= i <= |tokens|
      invariant Run(Trees(), tokens[i..], st) == Run(Trees(), tokens, [])
    {
      var token := tokens[i];
      RunAt(tokens, i, st);
      if |st| < Arity(token) {
        return None;
      }
      var args, below := Pop(st, Arity(token));
      st := below + [Result(Trees(), token, args)];
      i := i + 1;
    }
    RunAt(tokens, i, st);
    res := Some(st);
  }

  lemma ReverseSplit<T>(s: seq<T>)
    requires s != []
    ensures Reverse(s) == Reverse(s[1..]) + [s[0]]
  {
  }

  /** Reading back what was flattened gives the tree, alone on the stack. */
  lemma RoundTrip(e: Expr)
    requires Plain(e)
    ensures Run(Trees(), Code(e), []) == Some([e])
  {
    CodeRuns(Trees(), e);
    TreesRebuild(e);
  }

  lemma FlatteningIsInjective(e: Expr, e': Expr)
    requires Plain(e) && Plain(e') && Code(e) == Code(e')
    ensures e == e'
  {
    RoundTrip(e);
    RoundTrip(e');
  }
}
