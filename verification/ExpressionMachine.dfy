/** The stack machine that RPN is written for, and direct evaluation of the trees it came from. */
module ExpressionMachine {
  import opened Expressions
  import opened Optional

  /** What an inner node of a tree does with its operands. The last four have no RPN node. */
  datatype Op =
    | MemberOf(property: string)
    | IndexOf
    | UnaryOf(unary: string)
    | BinaryOf(binary: string)
    | CallOf(function_name: string)
    | Invoke
    | InvokeAt
    | ListOf
    | Self

  /** What every construct means, operands in source order and grouped by their number. Values are
      left open. */
  datatype Semantics<!V> = Semantics(
    literal: Lit -> V,
    identifier: string -> V,
    apply1: (Op, V) -> V,
    apply2: (Op, V, V) -> V,
    choose: (V, V, V) -> V,
    methodCall: (string, V, seq<V>) -> V,
    apply: (Op, seq<V>) -> V)

  predicate NoDot(s: string) {
    '.' !in s
  }

  /** What JavaScript makes of a unary operator on a literal, where the result is again a literal
      of the kinds above. */
  function Meaning(op: string, v: Lit): Option<Lit> {
    if op == "typeof" then
      Some(Str(if v.Num? then "number" else if v.Str? then "string" else if v.Bool? then "boolean" else "object"))
    else if op == "!!" then Some(Bool(v != Num(0.0) && v != Str("") && v != Bool(false) && v != Null))
    else if op == "-" && v.Num? then Some(Num(-1.0 * v.n))
    else if op == "+" && v.Num? then Some(v)
    else if op == "!" && v.Bool? then Some(Bool(!v.b))
    else None
  }

  ghost predicate LiteralLaw<V>(sem: Semantics<V>, op: string, v: Lit) {
    Meaning(op, v).Some? ==> sem.apply1(UnaryOf(op), sem.literal(v)) == sem.literal(Meaning(op, v).value)
  }

  ghost predicate LiteralLaws<V>(sem: Semantics<V>) {
    forall op, v :: LiteralLaw(sem, op, v)
  }

  /** A dotted identifier is nested member access. */
  ghost predicate DotLaw<V>(sem: Semantics<V>, name: string, p: string) {
    NoDot(p) ==> sem.identifier(name + "." + p) == sem.apply1(MemberOf(p), sem.identifier(name))
  }

  ghost predicate PathLaw<V>(sem: Semantics<V>) {
    forall name, p :: DotLaw(sem, name, p)
  }

  ghost predicate Lawful<V>(sem: Semantics<V>) {
    LiteralLaws(sem) && PathLaw(sem)
  }

  // ---------------------------------------------------------------- direct evaluation

  function Eval<V>(sem: Semantics<V>, e: Expr): V
    decreases e, 1
  {
    match e
    case Literal(v) => sem.literal(v)
    case Identifier(name) => sem.identifier(name)
    case Member(o, p) => sem.apply1(MemberOf(p), Eval(sem, o))
    case Index(o, i) => sem.apply2(IndexOf, Eval(sem, o), Eval(sem, i))
    case Unary(op, a) => sem.apply1(UnaryOf(op), Eval(sem, a))
    case Binary(op, l, r) => sem.apply2(BinaryOf(op), Eval(sem, l), Eval(sem, r))
    case Conditional(t, c, a) => sem.choose(Eval(sem, t), Eval(sem, c), Eval(sem, a))
    case Call(callee, args) =>
      (match callee
       case Identifier(f) => sem.apply(CallOf(f), EvalList(sem, args))
       case Member(o, p) => sem.methodCall(p, Eval(sem, o), EvalList(sem, args))
       case Index(o, i) => sem.apply(InvokeAt, [Eval(sem, o), Eval(sem, i)] + EvalList(sem, args))
       case _ => sem.apply(Invoke, [Eval(sem, callee)] + EvalList(sem, args)))
    case ArrayExpression(es) => sem.apply(ListOf, EvalList(sem, es))
    case This => sem.apply(Self, [])
  }

  function EvalList<V>(sem: Semantics<V>, es: seq<Expr>): (r: seq<V>)
    ensures |r| == |es|
    decreases es, 0
  {
    if es == [] then [] else [Eval(sem, es[0])] + EvalList(sem, es[1..])
  }

  // ---------------------------------------------------------------- the machine

  function Reverse<T>(s: seq<T>): (r: seq<T>)
    ensures |r| == |s|
  {
    if s == [] then [] else Reverse(s[1..]) + [s[0]]
  }

  /** An undefined name is printed as text. */
  function NameText(name: Option<string>): string {
    if name.Some? then name.value else "undefined"
  }

  /** Replaces the `n` topmost values by `v`. */
  function Put<V>(st: seq<V>, n: nat, v: V): seq<V>
    requires n <= |st|
  {
    st[..|st| - n] + [v]
  }

  /** The `n` topmost values in the order they are popped. */
  function Popped<V>(st: seq<V>, n: nat): (r: seq<V>)
    requires n <= |st|
    ensures |r| == n
  {
    Reverse(st[|st| - n..])
  }

  /** How many values a token takes from the stack. */
  function Arity(node: Node): nat {
    match node
    case LiteralNode(_) => 0
    case IdentifierNode(_) => 0
    case MemberNode(name) => if name.Some? then 1 else 2
    case MethodCallNode(_, argc) => argc + 1
    case FunctionCallNode(_, argc) => argc
    case BinaryNode(_) => 2
    case UnaryNode(_) => 1
    case ConditionalNode => 3
  }

  /** The value a token computes from what it pops, in the pop orders of `toInfix`. */
  function Result<V>(sem: Semantics<V>, node: Node, popped: seq<V>): V
    requires |popped| == Arity(node)
  {
    match node
    case LiteralNode(v) => sem.literal(v)
    case IdentifierNode(name) => sem.identifier(name)
    case MemberNode(name) =>
      if name.Some? then sem.apply1(MemberOf(name.value), popped[0]) else sem.apply2(IndexOf, popped[1], popped[0])
    case MethodCallNode(name, _) => sem.methodCall(NameText(name), popped[0], popped[1..])
    case FunctionCallNode(name, _) => sem.apply(CallOf(NameText(name)), popped)
    case BinaryNode(op) => sem.apply2(BinaryOf(op), popped[0], popped[1])
    case UnaryNode(op) => sem.apply1(UnaryOf(op), popped[0])
    case ConditionalNode => sem.choose(popped[2], popped[1], popped[0])
  }

  /** One token. Popping an empty stack is `None`. */
  function Step<V>(sem: Semantics<V>, node: Node, st: seq<V>): Option<seq<V>> {
    var n := Arity(node);
    if |st| < n then None else Some(Put(st, n, Result(sem, node, Popped(st, n))))
  }

  function Run<V>(sem: Semantics<V>, code: seq<Node>, st: seq<V>): Option<seq<V>>
    decreases |code|
  {
    if code == [] then Some(st)
    else
      match Step(sem, code[0], st)
      case None => None
      case Some(st') => Run(sem, code[1..], st')
  }

  function Bind<V>(sem: Semantics<V>, st: Option<seq<V>>, code: seq<Node>): Option<seq<V>> {
    if st.None? then None else Run(sem, code, st.value)
  }

  lemma {:induction false} RunAppend<V>(sem: Semantics<V>, a: seq<Node>, b: seq<Node>, st: seq<V>)
    ensures Run(sem, a + b, st) == Bind(sem, Run(sem, a, st), b)
    decreases |a|
  {
    if a == [] {
      assert a + b == b;
    } else {
      assert (a + b)[1..] == a[1..] + b;
      var next := Step(sem, a[0], st);
      if next.Some? {
        RunAppend(sem, a[1..], b, next.value);
      }
    }
  }

  lemma RunLast<V>(sem: Semantics<V>, a: seq<Node>, node: Node, st: seq<V>)
    ensures Run(sem, a + [node], st) ==
            var r := Run(sem, a, st); if r.None? then None else Step(sem, node, r.value)
  {
    RunAppend(sem, a, [node], st);
    var r := Run(sem, a, st);
    if r.Some? {
      RunOne(sem, node, r.value);
    }
  }

  lemma RunOne<V>(sem: Semantics<V>, node: Node, st: seq<V>)
    ensures Run(sem, [node], st) == Step(sem, node, st)
  {
    var next := Step(sem, [node][0], st);
    if next.Some? {
      assert Run(sem, [node][1..], next.value) == next;
    }
  }

  lemma ReverseOne<T>(x: T)
    ensures Reverse([x]) == [x]
  {
    assert [x][1..] == [];
  }

  lemma {:induction false} ReverseTwice<T>(s: seq<T>)
    ensures Reverse(Reverse(s)) == s
  {
    if s != [] {
      ReverseTwice(s[1..]);
      ReverseAppend(Reverse(s[1..]), s[0]);
    }
  }

  lemma {:induction false} ReverseAppend<T>(s: seq<T>, x: T)
    ensures Reverse(s + [x]) == [x] + Reverse(s)
    decreases |s|
  {
    if s != [] {
      assert (s + [x])[1..] == s[1..] + [x];
      ReverseAppend(s[1..], x);
    }
  }

  /** Values below the ones a token uses do not matter to it, and stay. */
  lemma StepFrame<V>(sem: Semantics<V>, node: Node, below: seq<V>, st: seq<V>)
    requires Step(sem, node, st).Some?
    ensures Step(sem, node, below + st) == Some(below + Step(sem, node, st).value)
  {
    var n, all := Arity(node), below + st;
    assert all[|all| - n..] == st[|st| - n..];
    var v := Result(sem, node, Popped(st, n));
    assert Put(all, n, v) == below + Put(st, n, v);
  }

  /** A token that takes the whole stack leaves its result alone on it. */
  lemma StepAll<V>(sem: Semantics<V>, node: Node, popped: seq<V>)
    requires |popped| == Arity(node)
    ensures Step(sem, node, Reverse(popped)) == Some([Result(sem, node, popped)])
  {
    var st, n := Reverse(popped), |popped|;
    ReverseTwice(popped);
    assert st[|st| - n..] == st;
    assert Put(st, n, Result(sem, node, popped)) == [Result(sem, node, popped)];
  }

  lemma StepLiteral<V>(sem: Semantics<V>, v: Lit, st: seq<V>)
    ensures Step(sem, LiteralNode(v), st) == Some(st + [sem.literal(v)])
  {
    assert st[..|st|] == st;
  }

  lemma StepUnary<V>(sem: Semantics<V>, op: string, st: seq<V>, x: V)
    ensures Step(sem, UnaryNode(op), st + [x]) == Some(st + [sem.apply1(UnaryOf(op), x)])
  {
    var all := st + [x];
    ReverseOne(x);
    assert all[|all| - 1..] == [x] && all[..|all| - 1] == st;
  }

  lemma {:induction false} RunFrame<V>(sem: Semantics<V>, code: seq<Node>, below: seq<V>, st: seq<V>)
    requires Run(sem, code, st).Some?
    ensures Run(sem, code, below + st) == Some(below + Run(sem, code, st).value)
    decreases |code|
  {
    if code != [] {
      StepFrame(sem, code[0], below, st);
      RunFrame(sem, code[1..], below, Step(sem, code[0], st).value);
    }
  }

  /** Two pieces of code that each leave values on the empty stack leave them one above the other. */
  lemma RunBoth<V>(sem: Semantics<V>, a: seq<Node>, x: seq<V>, b: seq<Node>, y: seq<V>)
    requires Run(sem, a, []) == Some(x) && Run(sem, b, []) == Some(y)
    ensures Run(sem, a + b, []) == Some(x + y)
  {
    RunAppend(sem, a, b, []);
    RunFrame(sem, b, x, []);
    assert x + [] == x;
  }

  /** One more value on top is the first one to be popped. */
  lemma RunMore<V>(sem: Semantics<V>, a: seq<Node>, popped: seq<V>, b: seq<Node>, v: V)
    requires Run(sem, a, []) == Some(Reverse(popped)) && Run(sem, b, []) == Some([v])
    ensures Run(sem, a + b, []) == Some(Reverse([v] + popped))
  {
    hide Run;
    RunBoth(sem, a, Reverse(popped), b, [v]);
    assert ([v] + popped)[1..] == popped;
  }

  /** Code that pushes what a token pops, followed by the token. */
  lemma RunThen<V>(sem: Semantics<V>, code: seq<Node>, node: Node, popped: seq<V>)
    requires |popped| == Arity(node) && Run(sem, code, []) == Some(Reverse(popped))
    ensures Run(sem, code + [node], []) == Some([Result(sem, node, popped)])
  {
    hide Run;
    RunLast(sem, code, node, []);
    StepAll(sem, node, popped);
  }

  lemma Run0<V>(sem: Semantics<V>, node: Node)
    requires Arity(node) == 0
    ensures Run(sem, [node], []) == Some([Result(sem, node, [])])
  {
    RunThen(sem, [], node, []);
    assert [] + [node] == [node];
  }

  lemma Run1<V>(sem: Semantics<V>, a: seq<Node>, x: V, node: Node)
    requires Arity(node) == 1 && Run(sem, a, []) == Some([x])
    ensures Run(sem, a + [node], []) == Some([Result(sem, node, [x])])
  {
    hide Run;
    ReverseOne(x);
    RunThen(sem, a, node, [x]);
  }

  lemma RunPair<V>(sem: Semantics<V>, a: seq<Node>, x: V, b: seq<Node>, y: V)
    requires Run(sem, a, []) == Some([x]) && Run(sem, b, []) == Some([y])
    ensures Run(sem, a + b, []) == Some(Reverse([y, x]))
  {
    hide Run;
    ReverseOne(x);
    RunMore(sem, a, [x], b, y);
  }

  lemma Run2<V>(sem: Semantics<V>, a: seq<Node>, x: V, b: seq<Node>, y: V, node: Node)
    requires Arity(node) == 2
    requires Run(sem, a, []) == Some([x]) && Run(sem, b, []) == Some([y])
    ensures Run(sem, a + b + [node], []) == Some([Result(sem, node, [y, x])])
  {
    hide Run;
    RunPair(sem, a, x, b, y);
    RunThen(sem, a + b, node, [y, x]);
  }

  lemma RunTriple<V>(sem: Semantics<V>, a: seq<Node>, x: V, b: seq<Node>, y: V, c: seq<Node>, z: V)
    requires Run(sem, a, []) == Some([x]) && Run(sem, b, []) == Some([y]) && Run(sem, c, []) == Some([z])
    ensures Run(sem, a + b + c, []) == Some(Reverse([z, y, x]))
  {
    hide Run;
    RunPair(sem, a, x, b, y);
    RunMore(sem, a + b, [y, x], c, z);
    assert [z] + [y, x] == [z, y, x];
  }

  lemma RunConditional<V>(sem: Semantics<V>, a: seq<Node>, x: V, b: seq<Node>, y: V, c: seq<Node>, z: V)
    requires Run(sem, a, []) == Some([x]) && Run(sem, b, []) == Some([y]) && Run(sem, c, []) == Some([z])
    ensures Run(sem, a + b + c + [ConditionalNode], []) == Some([sem.choose(x, y, z)])
  {
    hide Run;
    RunTriple(sem, a, x, b, y, c, z);
    RunThen(sem, a + b + c, ConditionalNode, [z, y, x]);
  }

  // ---------------------------------------------------------------- optimizeUnary on any sequence

  /** No fold of `optimizeUnary` changes what the literal means: `+` follows only numbers, and no
      operator outside the handled five follows a literal. */
  predicate SafeFold(op: string, v: Lit) {
    op == "typeof" || op == "!!" || op == "-" || op == "!" || (op == "+" && v.Num?)
  }

  predicate UnarySafe(rpn: seq<Node>) {
    forall i :: 0 < i < |rpn| && rpn[i].UnaryNode? && rpn[i - 1].LiteralNode? ==>
      SafeFold(rpn[i].op, rpn[i - 1].value)
  }

  /** A literal survives until the next token, so what a fold pops is the literal it read. */
  lemma FoldPopsTheLiteral(rpn: seq<Node>)
    requires rpn != [] && Last(rpn).LiteralNode?
    ensures FoldUnary(rpn) != [] && Last(FoldUnary(rpn)) == Last(rpn)
    ensures Front(FoldUnary(rpn)) == FoldUnary(Front(rpn))
  {
  }

  lemma {:induction false} FoldUnaryNeverLonger(rpn: seq<Node>)
    ensures |FoldUnary(rpn)| <= |rpn|
    decreases |rpn|
  {
    hide FoldOf;
    if rpn != [] {
      var done := FoldUnary(Front(rpn));
      FoldUnaryNeverLonger(Front(rpn));
      if AfterLiteral(rpn) {
        FoldPopsTheLiteral(Front(rpn));
        assert |Front(done)| < |done|;
      }
    }
  }

  /** Folding a literal, or keeping or skipping the operator, does what running both tokens does. */
  lemma FoldPreservesStep<V>(sem: Semantics<V>, code: seq<Node>, op: string, v: Lit, st: seq<V>)
    requires LiteralLaws(sem) && SafeFold(op, v)
    ensures Run(sem, (code + [LiteralNode(v)]) + [UnaryNode(op)], st) ==
            match FoldOf(op, v)
            case Replace(w) => Run(sem, code + [LiteralNode(w)], st)
            case Keep => Run(sem, (code + [LiteralNode(v)]) + [UnaryNode(op)], st)
            case Skip => Run(sem, code + [LiteralNode(v)], st)
  {
    var fold := FoldOf(op, v);
    assert LiteralLaw(sem, op, v);
    RunLast(sem, code + [LiteralNode(v)], UnaryNode(op), st);
    RunLast(sem, code, LiteralNode(v), st);
    var below := Run(sem, code, st);
    if below.Some? {
      StepLiteral(sem, v, below.value);
      StepUnary(sem, op, below.value, sem.literal(v));
      if fold.Replace? {
        RunLast(sem, code, LiteralNode(fold.value), st);
        StepLiteral(sem, fold.value, below.value);
      }
    } else if fold.Replace? {
      RunLast(sem, code, LiteralNode(fold.value), st);
    }
  }

  lemma {:induction false} FoldUnaryPreservesRuns<V>(sem: Semantics<V>, rpn: seq<Node>, st: seq<V>)
    requires LiteralLaws(sem) && UnarySafe(rpn)
    ensures Run(sem, FoldUnary(rpn), st) == Run(sem, rpn, st)
    decreases |rpn|
  {
    if rpn != [] {
      var front, node := Front(rpn), Last(rpn);
      var done := FoldUnary(front);
      assert rpn == front + [node];
      FoldUnaryPreservesRuns(sem, front, st);
      RunLast(sem, front, node, st);
      RunLast(sem, done, node, st);
      if AfterLiteral(rpn) {
        FoldPopsTheLiteral(front);
        assert done == Front(done) + [Last(front)];
        FoldPreservesStep(sem, Front(done), node.op, Last(front).value, st);
      }
    }
  }
}
