/** Outside the fragment the compiler is wrong: for each way of leaving it there is a lawful meaning
    of the constructs under which compiled code does not push the value of the tree. */
module ExpressionExactness {
  import opened Expressions
  import opened ExpressionMachine
  import opened ExpressionCorrectness
  import opened Optional

  /** A value that only remembers which literal it is, if any, and a running count. */
  datatype Meter = Meter(lit: Option<Lit>, n: nat)

  function Count(n: nat): Meter {
    Meter(None, n)
  }

  function Sum(s: seq<Meter>): nat {
    if s == [] then 0 else s[0].n + Sum(s[1..])
  }

  lemma {:induction false} SumAppend(a: seq<Meter>, b: seq<Meter>)
    ensures Sum(a + b) == Sum(a) + Sum(b)
    decreases |a|
  {
    if a == [] {
      assert a + b == b;
    } else {
      assert (a + b)[1..] == a[1..] + b;
      SumAppend(a[1..], b);
    }
  }

  lemma Sum1(x: Meter)
    ensures Sum([x]) == x.n
  {
    assert [x][1..] == [];
  }

  lemma SumFew(s: seq<Meter>)
    ensures |s| == 1 ==> Sum(s) == s[0].n
    ensures |s| == 2 ==> Sum(s) == s[0].n + s[1].n
    ensures |s| == 3 ==> Sum(s) == s[0].n + s[1].n + s[2].n
  {
    if |s| == 2 {
      SumFew(s[1..]);
    } else if |s| == 3 {
      SumFew(s[1..]);
    }
  }

  lemma {:induction false} SumReverse(s: seq<Meter>)
    ensures Sum(Reverse(s)) == Sum(s)
    decreases |s|
  {
    if s != [] {
      SumReverse(s[1..]);
      SumAppend(Reverse(s[1..]), [s[0]]);
      Sum1(s[0]);
    }
  }

  function Dots(s: string): nat {
    if s == "" then 0 else (if s[0] == '.' then 1 else 0) + Dots(s[1..])
  }

  lemma {:induction false} DotsAppend(a: string, b: string)
    ensures Dots(a + b) == Dots(a) + Dots(b)
    decreases |a|
  {
    if a == "" {
      assert a + b == b;
    } else {
      assert (a + b)[1..] == a[1..] + b;
      DotsAppend(a[1..], b);
    }
  }

  lemma {:induction false} NoDots(s: string)
    requires NoDot(s)
    ensures Dots(s) == 0
  {
    if s != "" {
      NoDots(s[1..]);
    }
  }

  lemma DotsOfPath(name: string, p: string)
    ensures Dots(name + "." + p) == Dots(name) + 1 + Dots(p)
  {
    DotsAppend(name + ".", p);
    DotsAppend(name, ".");
  }

  // ---------------------------------------------------------------- counting constructs

  /** Counts the constructs that are switched on: computed members, named members, or the ones the
      compiler has no node for. */
  datatype Switch = Computed | Named | Unsupported

  function If(b: bool): nat {
    if b then 1 else 0
  }

  function OpWeight(sw: Switch, op: Op): nat {
    match op
    case MemberOf(_) => If(sw.Named?)
    case IndexOf => If(sw.Computed?)
    case Invoke => If(sw.Unsupported?)
    case InvokeAt => If(sw.Unsupported?)
    case ListOf => If(sw.Unsupported?)
    case Self => If(sw.Unsupported?)
    case _ => 0
  }

  function CountLiteral(v: Lit): Meter {
    Count(0)
  }

  function CountName(sw: Switch, name: string): Meter {
    Count(if sw.Named? then Dots(name) else 0)
  }

  function Count1(sw: Switch, op: Op, a: Meter): Meter {
    Count(a.n + OpWeight(sw, op))
  }

  function Count2(sw: Switch, op: Op, a: Meter, b: Meter): Meter {
    Count(a.n + b.n + OpWeight(sw, op))
  }

  function Count3(a: Meter, b: Meter, c: Meter): Meter {
    Count(a.n + b.n + c.n)
  }

  function CountMethodCall(o: Meter, args: seq<Meter>): Meter {
    Count(o.n + Sum(args))
  }

  function CountAll(sw: Switch, op: Op, args: seq<Meter>): Meter {
    Count(Sum(args) + OpWeight(sw, op))
  }

  function Counting(sw: Switch): Semantics<Meter> {
    Semantics(
      v => CountLiteral(v),
      name => CountName(sw, name),
      (op, a) => Count1(sw, op, a),
      (op, a, b) => Count2(sw, op, a, b),
      (a, b, c) => Count3(a, b, c),
      (p, o, args) => CountMethodCall(o, args),
      (op, args) => CountAll(sw, op, args))
  }

  lemma CountingIsLawful(sw: Switch)
    ensures Lawful(Counting(sw))
  {
    var sem := Counting(sw);
    forall op, v ensures LiteralLaw(sem, op, v) {
    }
    forall name, p ensures DotLaw(sem, name, p) {
      if NoDot(p) {
        DotsOfPath(name, p);
        NoDots(p);
      }
    }
  }

  function Weight(sw: Switch, node: Node): nat {
    match node
    case IdentifierNode(name) => if sw.Named? then Dots(name) else 0
    case MemberNode(part) => if part.Some? then If(sw.Named?) else If(sw.Computed?)
    case _ => 0
  }

  function Total(sw: Switch, code: seq<Node>): nat
    decreases |code|
  {
    if code == [] then 0 else Weight(sw, code[0]) + Total(sw, code[1..])
  }

  lemma {:induction false} TotalAppend(sw: Switch, a: seq<Node>, b: seq<Node>)
    ensures Total(sw, a + b) == Total(sw, a) + Total(sw, b)
    decreases |a|
  {
    if a == [] {
      assert a + b == b;
    } else {
      assert (a + b)[1..] == a[1..] + b;
      TotalAppend(sw, a[1..], b);
    }
  }

  lemma TotalLast(sw: Switch, a: seq<Node>, node: Node)
    ensures Total(sw, a + [node]) == Total(sw, a) + Weight(sw, node)
  {
    TotalAppend(sw, a, [node]);
    assert [node][1..] == [];
  }

  /** A token adds its weight to what it pops: nothing that was counted is ever discarded. */
  lemma ResultCounts(sw: Switch, node: Node, popped: seq<Meter>)
    requires |popped| == Arity(node)
    ensures Result(Counting(sw), node, popped).n == Sum(popped) + Weight(sw, node)
  {
    if !node.FunctionCallNode? {
      SumFew(popped);
    }
  }

  lemma SumPut(st: seq<Meter>, n: nat, v: Meter)
    requires n <= |st|
    ensures Sum(Put(st, n, v)) + Sum(Popped(st, n)) == Sum(st) + v.n
  {
    var below, top := st[..|st| - n], st[|st| - n..];
    assert st == below + top;
    SumAppend(below, top);
    SumReverse(top);
    SumAppend(below, [v]);
    Sum1(v);
  }

  lemma StepCounts(sw: Switch, node: Node, st: seq<Meter>)
    requires Arity(node) <= |st|
    ensures Sum(Step(Counting(sw), node, st).value) == Sum(st) + Weight(sw, node)
  {
    var n := Arity(node);
    ResultCounts(sw, node, Popped(st, n));
    SumPut(st, n, Result(Counting(sw), node, Popped(st, n)));
  }

  lemma {:induction false} RunCounts(sw: Switch, code: seq<Node>, st: seq<Meter>)
    requires Run(Counting(sw), code, st).Some?
    ensures Sum(Run(Counting(sw), code, st).value) == Sum(st) + Total(sw, code)
    decreases |code|
  {
    if code != [] {
      StepCounts(sw, code[0], st);
      RunCounts(sw, code[1..], Step(Counting(sw), code[0], st).value);
    }
  }

  lemma {:induction false} FoldUnaryTotal(sw: Switch, rpn: seq<Node>)
    ensures Total(sw, FoldUnary(rpn)) == Total(sw, rpn)
    decreases |rpn|
  {
    if rpn != [] {
      var front, node := Front(rpn), Last(rpn);
      var done := FoldUnary(front);
      FoldUnaryTotal(sw, front);
      assert rpn == front + [node];
      TotalLast(sw, front, node);
      TotalLast(sw, done, node);
      if AfterLiteral(rpn) {
        FoldPopsTheLiteral(front);
        assert done == Front(done) + [Last(done)];
        TotalLast(sw, Front(done), Last(done));
        var fold := FoldOf(node.op, Last(front).value);
        if fold.Replace? {
          TotalLast(sw, Front(done), LiteralNode(fold.value));
        }
      }
    }
  }

  // ---------------------------------------------------------------- what optimizeIdentifiers keeps

  /** The weight of what `optimizeIdentifiers` leaves of `code`, while it is collecting a path or not. */
  function Kept(sw: Switch, open: bool, code: seq<Node>): nat
    decreases |code|
  {
    if code == [] then 0
    else
      var node, rest := code[0], code[1..];
      if node.IdentifierNode? then Weight(sw, node) + Kept(sw, true, rest)
      else if node.MemberNode? && open then
        if rest != [] && rest[0].MethodCallNode? then Kept(sw, false, rest)
        else Absorbed(sw, node) + Kept(sw, true, rest)
      else Weight(sw, node) + Kept(sw, false, rest)
  }

  function Absorbed(sw: Switch, node: Node): nat
    requires node.MemberNode?
  {
    if sw.Named? then 1 + Dots(PartText(node.part)) else 0
  }

  lemma {:induction false} TakePathKept(sw: Switch, parts: seq<string>, rest: seq<Node>)
    requires parts != []
    ensures var (parts', rest') := TakePath(parts, rest);
            Weight(sw, IdentifierNode(Join(parts'))) + Kept(sw, false, rest') ==
            Weight(sw, IdentifierNode(Join(parts))) + Kept(sw, true, rest)
    decreases |rest|
  {
    if rest != [] && rest[0].MemberNode? && !(|rest| > 1 && rest[1].MethodCallNode?) {
      var more := parts + [PartText(rest[0].part)];
      assert Front(more) == parts;
      DotsOfPath(Join(parts), PartText(rest[0].part));
      TakePathKept(sw, more, rest[1..]);
    }
  }

  lemma {:induction false} FoldPathsTotal(sw: Switch, rpn: seq<Node>)
    ensures Total(sw, FoldPaths(rpn)) == Kept(sw, false, rpn)
    decreases |rpn|
  {
    if rpn != [] {
      if rpn[0].IdentifierNode? {
        var (parts, rest) := TakePath([rpn[0].name], rpn[1..]);
        TakePathKept(sw, [rpn[0].name], rpn[1..]);
        FoldPathsTotal(sw, rest);
        assert FoldPaths(rpn)[1..] == FoldPaths(rest);
      } else {
        FoldPathsTotal(sw, rpn[1..]);
        assert FoldPaths(rpn)[1..] == FoldPaths(rpn[1..]);
      }
    }
  }

  /** Only constructs with a node of their own; method calls on anything. */
  predicate Supported(e: Expr)
    decreases e, 1
  {
    match e
    case Literal(_) => true
    case Identifier(_) => true
    case Member(o, _) => Supported(o)
    case Index(o, i) => Supported(o) && Supported(i)
    case Unary(_, a) => Supported(a)
    case Binary(_, l, r) => Supported(l) && Supported(r)
    case Conditional(t, c, a) => Supported(t) && Supported(c) && Supported(a)
    case Call(callee, args) =>
      SupportedList(args) && (callee.Identifier? || (callee.Member? && Supported(callee.owner)))
    case _ => false
  }

  predicate SupportedList(es: seq<Expr>)
    decreases es, 0
  {
    es == [] || (Supported(es[0]) && SupportedList(es[1..]))
  }

  /** The part of `e`'s own count that survives. */
  function KeptOf(sw: Switch, e: Expr): nat
    requires Supported(e)
    decreases e, 1
  {
    match e
    case Literal(_) => 0
    case Identifier(name) => Weight(sw, IdentifierNode(name))
    case Member(o, _) => KeptOf(sw, o) + If(sw.Named?)
    case Index(o, i) => KeptOf(sw, o) + KeptOf(sw, i) + If(if Open(i) then sw.Named? else sw.Computed?)
    case Unary(_, a) => KeptOf(sw, a)
    case Binary(_, l, r) => KeptOf(sw, l) + KeptOf(sw, r)
    case Conditional(t, c, a) => KeptOf(sw, t) + KeptOf(sw, c) + KeptOf(sw, a)
    case Call(callee, args) =>
      KeptOfList(sw, args) +
      (if callee.Identifier? then 0 else KeptOf(sw, callee.owner) + If(!Open(callee.owner) && sw.Named?))
  }

  function KeptOfList(sw: Switch, es: seq<Expr>): nat
    requires SupportedList(es)
    decreases es, 0
  {
    if es == [] then 0 else KeptOf(sw, es[0]) + KeptOfList(sw, es[1..])
  }

  /** Whatever came before and whatever follows, `code` contributes `k`. */
  ghost predicate Keeps(sw: Switch, code: seq<Node>, k: nat, open: bool) {
    forall before, rest :: NoMethodFirst(rest) ==>
      Kept(sw, before, code + rest) == k + Kept(sw, open, rest)
  }

  /** The same for code that may be empty, before something that is not a member. */
  ghost predicate KeepsList(sw: Switch, code: seq<Node>, k: nat) {
    forall before, rest :: NoMethodFirst(rest) && NoMemberFirst(rest) ==>
      Kept(sw, before, code + rest) == k + Kept(sw, false, rest)
  }

  lemma KeepsThen(sw: Switch, a: seq<Node>, k: nat, open: bool, c: seq<Node>, k': nat, open': bool)
    requires Keeps(sw, a, k, open) && Keeps(sw, c, k', open')
    requires c != [] && !c[0].MethodCallNode?
    ensures Keeps(sw, a + c, k + k', open')
  {
    forall before, rest | NoMethodFirst(rest)
      ensures Kept(sw, before, (a + c) + rest) == k + k' + Kept(sw, open', rest)
    {
      var tail := c + rest;
      assert tail[0] == c[0];
      assert (a + c) + rest == a + tail;
    }
  }

  lemma KeepsListThen(sw: Switch, a: seq<Node>, k: nat, c: seq<Node>, k': nat, open': bool)
    requires KeepsList(sw, a, k) && Keeps(sw, c, k', open')
    requires c != [] && !c[0].MethodCallNode? && !c[0].MemberNode?
    ensures Keeps(sw, a + c, k + k', open')
  {
    forall before, rest | NoMethodFirst(rest)
      ensures Kept(sw, before, (a + c) + rest) == k + k' + Kept(sw, open', rest)
    {
      var tail := c + rest;
      assert tail[0] == c[0];
      assert (a + c) + rest == a + tail;
    }
  }

  lemma KeepsOne(sw: Switch, node: Node)
    requires !node.MemberNode?
    ensures Keeps(sw, [node], Weight(sw, node), node.IdentifierNode?)
  {
    forall before, rest
      ensures Kept(sw, before, [node] + rest) == Weight(sw, node) + Kept(sw, node.IdentifierNode?, rest)
    {
      assert ([node] + rest)[1..] == rest;
    }
  }

  lemma KeepsWith(sw: Switch, a: seq<Node>, k: nat, open: bool, node: Node)
    requires Keeps(sw, a, k, open) && !node.MemberNode? && !node.MethodCallNode? && !node.IdentifierNode?
    ensures Keeps(sw, a + [node], k, false)
  {
    KeepsOne(sw, node);
    KeepsThen(sw, a, k, open, [node], 0, false);
  }

  lemma KeepsMember(sw: Switch, a: seq<Node>, k: nat, open: bool, part: Option<string>)
    requires Keeps(sw, a, k, open) && NoDot(PartText(part))
    ensures Keeps(sw, a + [MemberNode(part)], k + (if open then If(sw.Named?) else Weight(sw, MemberNode(part))), open)
  {
    var node := MemberNode(part);
    NoDots(PartText(part));
    forall before, rest | NoMethodFirst(rest)
      ensures Kept(sw, before, (a + [node]) + rest) ==
              k + (if open then If(sw.Named?) else Weight(sw, node)) + Kept(sw, open, rest)
    {
      var tail := [node] + rest;
      assert tail[1..] == rest;
      assert (a + [node]) + rest == a + tail;
    }
  }

  lemma KeepsMethodCall(sw: Switch, a: seq<Node>, k: nat, open: bool, p: string, argc: nat)
    requires Keeps(sw, a, k, open)
    ensures Keeps(sw, a + [MemberNode(Some(p)), MethodCallNode(Some(p), argc)], k + If(!open && sw.Named?), false)
  {
    var node, call := MemberNode(Some(p)), MethodCallNode(Some(p), argc);
    forall before, rest | NoMethodFirst(rest)
      ensures Kept(sw, before, (a + [node, call]) + rest) == k + If(!open && sw.Named?) + Kept(sw, false, rest)
    {
      var tail := [node, call] + rest;
      var tail' := [call] + rest;
      assert tail[1..] == tail' && tail'[1..] == rest;
      assert Kept(sw, false, tail') == Kept(sw, false, rest);
      assert (a + [node, call]) + rest == a + tail;
    }
  }

  lemma {:induction false} SupportedStarts(e: Expr)
    requires Supported(e)
    ensures Starts(Code(e))
    decreases e, 1
  {
    match e
    case Literal(_) =>
    case Identifier(_) =>
    case Member(o, _) => SupportedStarts(o);
    case Index(o, i) => SupportedStarts(o);
    case Unary(_, a) => SupportedStarts(a);
    case Binary(_, l, r) => SupportedStarts(r);
    case Conditional(t, c, a) => SupportedStarts(t);
    case Call(callee, args) =>
      SupportedListStarts(args);
      if callee.Member? {
        SupportedStarts(callee.owner);
      }
  }

  lemma {:induction false} SupportedListStarts(es: seq<Expr>)
    requires SupportedList(es)
    ensures ListCode(es) == [] || Starts(ListCode(es))
    decreases es, 0
  {
    if es != [] {
      SupportedStarts(es[0]);
      SupportedListStarts(es[1..]);
    }
  }

  lemma {:induction false} KeepsCode(sw: Switch, e: Expr)
    requires Supported(e) && WellNamed(e)
    ensures Keeps(sw, Code(e), KeptOf(sw, e), Open(e))
    decreases e, 1
  {
    match e
    case Literal(v) => KeepsOne(sw, LiteralNode(v));
    case Identifier(name) => KeepsOne(sw, IdentifierNode(name));
    case Member(o, p) =>
      KeepsCode(sw, o);
      KeepsMember(sw, Code(o), KeptOf(sw, o), Open(o), Some(p));
    case Index(o, i) =>
      KeepsCode2(sw, o, i);
      KeepsMember(sw, Code(o) + Code(i), KeptOf(sw, o) + KeptOf(sw, i), Open(i), None);
    case Unary(op, a) =>
      KeepsCode(sw, a);
      KeepsWith(sw, Code(a), KeptOf(sw, a), Open(a), UnaryNode(op));
    case Binary(op, l, r) =>
      KeepsCode2(sw, r, l);
      KeepsWith(sw, Code(r) + Code(l), KeptOf(sw, r) + KeptOf(sw, l), Open(l), BinaryNode(op));
    case Conditional(_, _, _) => KeepsConditional(sw, e);
    case Call(_, _) => KeepsCall(sw, e);
  }

  lemma {:induction false} KeepsConditional(sw: Switch, e: Expr)
    requires Supported(e) && WellNamed(e) && e.Conditional?
    ensures Keeps(sw, Code(e), KeptOf(sw, e), false)
    decreases e, 0
  {
    var (t, c, a) := (e.test, e.consequent, e.alternate);
    KeepsCode2(sw, t, c);
    KeepsCode(sw, a);
    SupportedStarts(a);
    KeepsThen(sw, Code(t) + Code(c), KeptOf(sw, t) + KeptOf(sw, c), Open(c), Code(a), KeptOf(sw, a), Open(a));
    KeepsWith(sw, Code(t) + Code(c) + Code(a), KeptOf(sw, t) + KeptOf(sw, c) + KeptOf(sw, a), Open(a), ConditionalNode);
  }

  lemma {:induction false} KeepsCall(sw: Switch, e: Expr)
    requires Supported(e) && WellNamed(e) && e.Call?
    ensures Keeps(sw, Code(e), KeptOf(sw, e), false)
    decreases e, 0
  {
    var callee, args := e.callee, e.arguments;
    KeepsListCode(sw, args);
    if callee.Identifier? {
      var node := FunctionCallNode(Some(callee.name), |args|);
      KeepsOne(sw, node);
      KeepsListThen(sw, ListCode(args), KeptOfList(sw, args), [node], 0, false);
    } else {
      var o, p := callee.owner, callee.property;
      var tail := [MemberNode(Some(p)), MethodCallNode(Some(p), |args|)];
      KeepsCode(sw, o);
      SupportedStarts(o);
      KeepsMethodCall(sw, Code(o), KeptOf(sw, o), Open(o), p, |args|);
      KeepsListThen(sw, ListCode(args), KeptOfList(sw, args), Code(o) + tail,
                    KeptOf(sw, o) + If(!Open(o) && sw.Named?), false);
      assert Code(e) == ListCode(args) + (Code(o) + tail);
    }
  }

  lemma {:induction false} KeepsCode2(sw: Switch, x: Expr, y: Expr)
    requires Supported(x) && WellNamed(x) && Supported(y) && WellNamed(y)
    ensures Keeps(sw, Code(x) + Code(y), KeptOf(sw, x) + KeptOf(sw, y), Open(y))
    decreases if x < y then y else x, 2
  {
    KeepsCode(sw, x);
    KeepsCode(sw, y);
    SupportedStarts(y);
    KeepsThen(sw, Code(x), KeptOf(sw, x), Open(x), Code(y), KeptOf(sw, y), Open(y));
  }

  lemma {:induction false} KeepsListCode(sw: Switch, es: seq<Expr>)
    requires SupportedList(es) && WellNamedList(es)
    ensures KeepsList(sw, ListCode(es), KeptOfList(sw, es))
    decreases es, 0
  {
    if es == [] {
      forall rest: seq<Node> ensures ListCode(es) + rest == rest {
      }
    } else {
      KeepsListCode(sw, es[1..]);
      KeepsCode(sw, es[0]);
      SupportedStarts(es[0]);
      KeepsListThen(sw, ListCode(es[1..]), KeptOfList(sw, es[1..]), Code(es[0]), KeptOf(sw, es[0]), Open(es[0]));
    }
  }

  lemma CompiledTotal(sw: Switch, e: Expr)
    requires Supported(e) && WellNamed(e)
    ensures Total(sw, Compile(e)) == KeptOf(sw, e)
  {
    FoldUnaryTotal(sw, FoldPaths(Code(e)));
    FoldPathsTotal(sw, Code(e));
    KeepsCode(sw, e);
    assert Code(e) + [] == Code(e);
    assert Kept(sw, false, Code(e) + []) == KeptOf(sw, e) + Kept(sw, Open(e), []);
  }

  // ---------------------------------------------------------------- leaving the fragment by its paths

  /** What direct evaluation counts. */
  function CountOf(sw: Switch, e: Expr): nat
    requires Supported(e)
    decreases e, 1
  {
    match e
    case Literal(_) => 0
    case Identifier(name) => Weight(sw, IdentifierNode(name))
    case Member(o, _) => CountOf(sw, o) + If(sw.Named?)
    case Index(o, i) => CountOf(sw, o) + CountOf(sw, i) + If(sw.Computed?)
    case Unary(_, a) => CountOf(sw, a)
    case Binary(_, l, r) => CountOf(sw, l) + CountOf(sw, r)
    case Conditional(t, c, a) => CountOf(sw, t) + CountOf(sw, c) + CountOf(sw, a)
    case Call(callee, args) =>
      CountOfList(sw, args) + (if callee.Identifier? then 0 else CountOf(sw, callee.owner))
  }

  function CountOfList(sw: Switch, es: seq<Expr>): nat
    requires SupportedList(es)
    decreases es, 0
  {
    if es == [] then 0 else CountOf(sw, es[0]) + CountOfList(sw, es[1..])
  }

  lemma {:induction false} EvalCounts(sw: Switch, e: Expr)
    requires Supported(e)
    ensures Eval(Counting(sw), e).n == CountOf(sw, e)
    decreases e, 1
  {
    match e
    case Literal(_) =>
    case Identifier(_) =>
    case Member(o, _) => EvalCounts(sw, o);
    case Index(o, i) => EvalCounts(sw, o); EvalCounts(sw, i);
    case Unary(_, a) => EvalCounts(sw, a);
    case Binary(_, l, r) => EvalCounts(sw, l); EvalCounts(sw, r);
    case Conditional(t, c, a) => EvalCounts(sw, t); EvalCounts(sw, c); EvalCounts(sw, a);
    case Call(_, _) => EvalCountsCall(sw, e);
  }

  lemma {:induction false} EvalCountsCall(sw: Switch, e: Expr)
    requires Supported(e) && e.Call?
    ensures Eval(Counting(sw), e).n == CountOf(sw, e)
    decreases e, 0
  {
    EvalCountsList(sw, e.arguments);
    if e.callee.Member? {
      EvalCounts(sw, e.callee.owner);
    }
  }

  lemma {:induction false} EvalCountsList(sw: Switch, es: seq<Expr>)
    requires SupportedList(es)
    ensures Sum(EvalList(Counting(sw), es)) == CountOfList(sw, es)
    decreases es, 0
  {
    if es != [] {
      EvalCounts(sw, es[0]);
      EvalCountsList(sw, es[1..]);
    }
  }

  /** Dropped computed members lose a count; method names that were not dropped gain one. */
  lemma {:induction false} CountsDecide(e: Expr)
    requires Supported(e)
    ensures KeptOf(Computed, e) <= CountOf(Computed, e) && KeptOf(Named, e) >= CountOf(Named, e)
    ensures KeptOf(Computed, e) == CountOf(Computed, e) && KeptOf(Named, e) == CountOf(Named, e) ==> PathSafe(e)
    decreases e, 1
  {
    match e
    case Literal(_) =>
    case Identifier(_) =>
    case Member(o, _) => CountsDecide(o);
    case Index(o, i) => CountsDecide(o); CountsDecide(i);
    case Unary(_, a) => CountsDecide(a);
    case Binary(_, l, r) => CountsDecide(l); CountsDecide(r);
    case Conditional(t, c, a) => CountsDecide(t); CountsDecide(c); CountsDecide(a);
    case Call(callee, args) =>
      CountsDecideList(args);
      if callee.Member? {
        CountsDecide(callee.owner);
      }
  }

  lemma {:induction false} CountsDecideList(es: seq<Expr>)
    requires SupportedList(es)
    ensures KeptOfList(Computed, es) <= CountOfList(Computed, es) && KeptOfList(Named, es) >= CountOfList(Named, es)
    ensures KeptOfList(Computed, es) == CountOfList(Computed, es) && KeptOfList(Named, es) == CountOfList(Named, es) ==>
              PathSafeList(es)
    decreases es, 0
  {
    if es != [] {
      CountsDecide(es[0]);
      CountsDecideList(es[1..]);
    }
  }

  /** Constructs without a node are counted by direct evaluation and by nothing else. */
  lemma {:induction false} UnsupportedCounts(e: Expr)
    requires !Supported(e)
    ensures Eval(Counting(Unsupported), e).n > 0
    decreases e, 1
  {
    hide Sum;
    match e
    case Member(o, _) => UnsupportedCounts(o);
    case Index(o, i) => if !Supported(o) { UnsupportedCounts(o); } else { UnsupportedCounts(i); }
    case Unary(_, a) => UnsupportedCounts(a);
    case Binary(_, l, r) => if !Supported(l) { UnsupportedCounts(l); } else { UnsupportedCounts(r); }
    case Conditional(t, c, a) =>
      if !Supported(t) {
        UnsupportedCounts(t);
      } else if !Supported(c) {
        UnsupportedCounts(c);
      } else {
        UnsupportedCounts(a);
      }
    case Call(callee, args) =>
      if callee.Identifier? || callee.Member? {
        if !SupportedList(args) { UnsupportedListCounts(args); } else { UnsupportedCounts(callee.owner); }
      }
    case _ =>
  }

  lemma {:induction false} UnsupportedListCounts(es: seq<Expr>)
    requires !SupportedList(es)
    ensures Sum(EvalList(Counting(Unsupported), es)) > 0
    decreases es, 0
  {
    if !Supported(es[0]) {
      UnsupportedCounts(es[0]);
    } else {
      UnsupportedListCounts(es[1..]);
    }
  }

  // ---------------------------------------------------------------- leaving the fragment by its literals

  /** Remembers a literal through the operators that have a meaning on it, and counts every other
      use of `+` and of the operators that `optimizeUnary` does not know. */
  function Tick1(op: Op, a: Meter): Meter {
    if op.UnaryOf? then
      if a.lit.Some? && Meaning(op.unary, a.lit.value).Some? then Meter(Meaning(op.unary, a.lit.value), a.n)
      else Meter(None, a.n + If(op.unary !in ["typeof", "!!", "-", "!"]))
    else Count(a.n)
  }

  function TickAll(args: seq<Meter>): Meter {
    Count(Sum(args))
  }

  function Ticking(): Semantics<Meter> {
    Semantics(
      v => Meter(Some(v), 0),
      name => Count(0),
      (op, a) => Tick1(op, a),
      (op, a, b) => Count3(a, b, Count(0)),
      (a, b, c) => Count3(a, b, c),
      (p, o, args) => CountMethodCall(o, args),
      (op, args) => TickAll(args))
  }

  lemma TickingIsLawful()
    ensures Lawful(Ticking())
  {
    var sem := Ticking();
    forall op, v ensures LiteralLaw(sem, op, v) {
    }
    forall name, p ensures DotLaw(sem, name, p) {
    }
  }

  /** `x` fell behind `y` when an operator that counts was skipped: it never catches up. */
  predicate Behind(x: Meter, y: Meter) {
    x == y || (y.lit.None? && x.n < y.n)
  }

  predicate AllBehind(s: seq<Meter>, t: seq<Meter>) {
    |s| == |t| && forall i :: 0 <= i < |s| ==> Behind(s[i], t[i])
  }

  lemma {:induction false} SumBehind(s: seq<Meter>, t: seq<Meter>)
    requires AllBehind(s, t)
    ensures Sum(s) <= Sum(t)
    ensures Sum(s) == Sum(t) ==> s == t
    decreases |s|
  {
    if s != [] {
      SumBehind(s[1..], t[1..]);
      if Sum(s) == Sum(t) {
        assert s == [s[0]] + s[1..] && t == [t[0]] + t[1..];
      }
    }
  }

  lemma {:induction false} ReverseAt<T>(s: seq<T>, i: nat)
    requires i < |s|
    ensures Reverse(s)[i] == s[|s| - 1 - i]
    decreases |s|
  {
    if i < |s| - 1 {
      ReverseAt(s[1..], i);
    }
  }

  lemma PoppedBehind(s: seq<Meter>, t: seq<Meter>, n: nat)
    requires AllBehind(s, t) && n <= |s|
    ensures AllBehind(Popped(s, n), Popped(t, n))
    ensures s[..|s| - n] == t[..|t| - n] && Popped(s, n) == Popped(t, n) ==> s == t
  {
    forall i | 0 <= i < n ensures Popped(s, n)[i] == s[|s| - 1 - i] && Popped(t, n)[i] == t[|t| - 1 - i] {
      ReverseAt(s[|s| - n..], i);
      ReverseAt(t[|t| - n..], i);
    }
    if s[..|s| - n] == t[..|t| - n] && Popped(s, n) == Popped(t, n) {
      forall i | 0 <= i < |s| ensures s[i] == t[i] {
        if i < |s| - n {
          assert s[i] == s[..|s| - n][i] == t[..|t| - n][i] == t[i];
        } else {
          assert Popped(s, n)[|s| - 1 - i] == Popped(t, n)[|s| - 1 - i];
        }
      }
    }
  }

  /** Computing from operands that are behind gives a result that is behind, and equal results only
      from equal operands. */
  lemma ResultBehind(node: Node, p: seq<Meter>, q: seq<Meter>)
    requires |p| == Arity(node) && AllBehind(p, q)
    ensures var r, r' := Result(Ticking(), node, p), Result(Ticking(), node, q);
            Behind(r, r') && (r == r' ==> p == q)
  {
    SumBehind(p, q);
    if node.UnaryNode? {
      assert p == [p[0]] && q == [q[0]];
    } else {
      SumFew(p);
      SumFew(q);
    }
  }

  lemma StepBehind(node: Node, s: seq<Meter>, t: seq<Meter>)
    requires AllBehind(s, t) && Step(Ticking(), node, t).Some?
    ensures Step(Ticking(), node, s).Some?
    ensures AllBehind(Step(Ticking(), node, s).value, Step(Ticking(), node, t).value)
    ensures Step(Ticking(), node, s) == Step(Ticking(), node, t) ==> s == t
  {
    var n := Arity(node);
    var p, q := Popped(s, n), Popped(t, n);
    PoppedBehind(s, t, n);
    ResultBehind(node, p, q);
    var r, r' := Result(Ticking(), node, p), Result(Ticking(), node, q);
    var u, u' := Put(s, n, r), Put(t, n, r');
    if u == u' {
      assert u[..|s| - n] == s[..|s| - n] && u'[..|t| - n] == t[..|t| - n];
      assert Last(u) == r && Last(u') == r';
    }
  }

  lemma EndsWithLiteral(code: seq<Node>) returns (below: seq<Meter>)
    requires code != [] && Last(code).LiteralNode? && Run(Ticking(), code, []).Some?
    ensures Run(Ticking(), Front(code), []) == Some(below)
    ensures Run(Ticking(), code, []) == Some(below + [Meter(Some(Last(code).value), 0)])
  {
    hide Run;
    assert code == Front(code) + [Last(code)];
    RunLast(Ticking(), Front(code), Last(code), []);
    below := Run(Ticking(), Front(code), []).value;
    StepLiteral(Ticking(), Last(code).value, below);
  }

  lemma AllBehindLast(s: seq<Meter>, x: Meter, t: seq<Meter>, y: Meter)
    ensures AllBehind(s + [x], t + [y]) <==> AllBehind(s, t) && Behind(x, y)
    ensures s + [x] == t + [y] ==> s == t && x == y
  {
    var u, v := s + [x], t + [y];
    if AllBehind(u, v) {
      assert u[..|s|] == s && v[..|t|] == t && Last(u) == x && Last(v) == y;
      forall i | 0 <= i < |s| ensures Behind(s[i], t[i]) {
        assert u[i] == s[i] && v[i] == t[i];
      }
      assert Behind(u[|s|], v[|t|]);
    }
    if u == v {
      assert u[..|s|] == s && v[..|t|] == t && Last(u) == x && Last(v) == y;
    }
  }

  function FoldedTop(op: string, v: Lit): Meter {
    Meter(Some(if FoldOf(op, v).Replace? then FoldOf(op, v).value else v), 0)
  }

  /** Both codes push the same literal; a fold that removes the operator then changes the top of one
      stack, and running the operator the top of the other. */
  lemma FoldTops(rpn: seq<Node>) returns (s: seq<Meter>, t: seq<Meter>)
    requires AfterLiteral(rpn) && !FoldOf(Last(rpn).op, Last(Front(rpn)).value).Keep?
    requires Run(Ticking(), FoldUnary(Front(rpn)), []).Some? && Run(Ticking(), Front(rpn), []).Some?
    ensures var op, lit := Last(rpn).op, Last(Front(rpn)).value;
            && Run(Ticking(), FoldUnary(Front(rpn)), []) == Some(s + [Meter(Some(lit), 0)])
            && Run(Ticking(), Front(rpn), []) == Some(t + [Meter(Some(lit), 0)])
            && Run(Ticking(), FoldUnary(rpn), []) == Some(s + [FoldedTop(op, lit)])
            && Run(Ticking(), rpn, []) == Some(t + [Tick1(UnaryOf(op), Meter(Some(lit), 0))])
  {
    hide Run;
    var front, op := Front(rpn), Last(rpn).op;
    var done, lit := FoldUnary(front), Last(front).value;
    FoldPopsTheLiteral(front);
    s := EndsWithLiteral(done);
    t := EndsWithLiteral(front);
    assert rpn == front + [Last(rpn)];
    RunLast(Ticking(), front, Last(rpn), []);
    StepUnary(Ticking(), op, t, Meter(Some(lit), 0));
    if FoldOf(op, lit).Replace? {
      RunLast(Ticking(), Front(done), LiteralNode(FoldOf(op, lit).value), []);
      StepLiteral(Ticking(), FoldOf(op, lit).value, s);
    }
  }

  lemma FoldedTopBehind(op: string, v: Lit)
    requires !FoldOf(op, v).Keep?
    ensures var r := Tick1(UnaryOf(op), Meter(Some(v), 0));
            Behind(FoldedTop(op, v), r) && (FoldedTop(op, v) == r ==> SafeFold(op, v))
  {
  }

  /** The folded code runs whenever the code does, and leaves a stack that is behind. */
  ghost predicate Trails(folded: seq<Node>, code: seq<Node>) {
    var r, r' := Run(Ticking(), folded, []), Run(Ticking(), code, []);
    r.Some? && r'.Some? && AllBehind(r.value, r'.value)
  }

  ghost predicate Together(folded: seq<Node>, code: seq<Node>) {
    Run(Ticking(), folded, []) == Run(Ticking(), code, [])
  }

  lemma RemovingTrails(rpn: seq<Node>)
    requires AfterLiteral(rpn) && !FoldOf(Last(rpn).op, Last(Front(rpn)).value).Keep?
    requires Trails(FoldUnary(Front(rpn)), Front(rpn))
    ensures Trails(FoldUnary(rpn), rpn)
    ensures Together(FoldUnary(rpn), rpn) ==>
              Together(FoldUnary(Front(rpn)), Front(rpn)) && SafeFold(Last(rpn).op, Last(Front(rpn)).value)
  {
    hide Run, FoldUnary, AllBehind;
    var op, lit := Last(rpn).op, Last(Front(rpn)).value;
    var s, t := FoldTops(rpn);
    AllBehindLast(s, Meter(Some(lit), 0), t, Meter(Some(lit), 0));
    AllBehindLast(s, FoldedTop(op, lit), t, Tick1(UnaryOf(op), Meter(Some(lit), 0)));
    FoldedTopBehind(op, lit);
  }

  lemma KeepingTrails(folded: seq<Node>, code: seq<Node>, node: Node)
    requires Trails(folded, code) && Run(Ticking(), code + [node], []).Some?
    ensures Trails(folded + [node], code + [node])
    ensures Together(folded + [node], code + [node]) ==> Together(folded, code)
  {
    hide Run, AllBehind;
    RunLast(Ticking(), folded, node, []);
    RunLast(Ticking(), code, node, []);
    StepBehind(node, Run(Ticking(), folded, []).value, Run(Ticking(), code, []).value);
  }

  lemma EmptyTrails()
    ensures Trails([], [])
  {
    assert Run(Ticking(), [], []) == Some([]);
  }

  /** Code and folded code stay together exactly as long as every fold was safe. */
  lemma {:induction false} FoldUnaryTrails(rpn: seq<Node>)
    requires Run(Ticking(), rpn, []).Some?
    ensures Trails(FoldUnary(rpn), rpn)
    ensures Together(FoldUnary(rpn), rpn) ==> UnarySafe(rpn)
    decreases |rpn|
  {
    hide Run, AllBehind;
    if rpn == [] {
      EmptyTrails();
    } else {
      var front, node := Front(rpn), Last(rpn);
      assert rpn == front + [node];
      RunLast(Ticking(), front, node, []);
      FoldUnaryTrails(front);
      if AfterLiteral(rpn) && !FoldOf(node.op, Last(front).value).Keep? {
        RemovingTrails(rpn);
      } else {
        KeepingTrails(FoldUnary(front), front, node);
      }
      if Together(FoldUnary(rpn), rpn) {
        SafeSoFar(rpn);
      }
    }
  }

  lemma SafeSoFar(rpn: seq<Node>)
    requires rpn != [] && UnarySafe(Front(rpn))
    requires AfterLiteral(rpn) ==> SafeFold(Last(rpn).op, Last(Front(rpn)).value)
    ensures UnarySafe(rpn)
  {
  }

  // ---------------------------------------------------------------- the exact fragment

  ghost predicate Faithful<V(!new)>(sem: Semantics<V>, e: Expr) {
    forall st :: Run(sem, Compile(e), st) == Some(st + [Eval(sem, e)])
  }

  lemma FaithfulCounts(sw: Switch, e: Expr)
    requires Faithful(Counting(sw), e)
    ensures Eval(Counting(sw), e).n == Total(sw, Compile(e))
  {
    var v := Eval(Counting(sw), e);
    assert [] + [v] == [v];
    assert Run(Counting(sw), Compile(e), []) == Some([] + [v]);
    RunCounts(sw, Compile(e), []);
    Sum1(v);
  }

  lemma {:induction false} NothingUnsupported(code: seq<Node>)
    ensures Total(Unsupported, code) == 0
    decreases |code|
  {
    if code != [] {
      NothingUnsupported(code[1..]);
    }
  }

  lemma FaithfulIsPathSafe(e: Expr)
    requires WellNamed(e) && forall sw :: Faithful(Counting(sw), e)
    ensures PathSafe(e)
  {
    FaithfulCounts(Unsupported, e);
    NothingUnsupported(Compile(e));
    if !Supported(e) {
      UnsupportedCounts(e);
    }
    forall sw | sw == Computed || sw == Named ensures KeptOf(sw, e) == CountOf(sw, e) {
      FaithfulCounts(sw, e);
      CompiledTotal(sw, e);
      EvalCounts(sw, e);
    }
    CountsDecide(e);
  }

  lemma FaithfulIsLiteralSafe(e: Expr)
    requires WellNamed(e) && PathSafe(e) && Faithful(Ticking(), e)
    ensures LiteralSafe(e)
  {
    hide Run;
    var sem, v := Ticking(), Eval(Ticking(), e);
    TickingIsLawful();
    PathsFolded(e);
    PathCodeRuns(sem, e);
    assert [] + [v] == [v];
    assert Run(sem, Compile(e), []) == Some([] + [v]);
    FoldUnaryTrails(PathCode(e));
    UnarySafePathCode(e);
  }

  /** The compiler is right about an expression, under every lawful meaning of the constructs and
      above every stack, if and only if the expression is in the fragment. */
  lemma CompileExact(e: Expr)
    requires WellNamed(e)
    ensures Fragment(e) <==> forall sem: Semantics<Meter> :: Lawful(sem) ==> Faithful(sem, e)
  {
    if Fragment(e) {
      forall sem: Semantics<Meter>, st | Lawful(sem)
        ensures Run(sem, Compile(e), st) == Some(st + [Eval(sem, e)])
      {
        CompileCorrect(sem, e, st);
      }
    } else if forall sem: Semantics<Meter> :: Lawful(sem) ==> Faithful(sem, e) {
      forall sw ensures Faithful(Counting(sw), e) {
        CountingIsLawful(sw);
      }
      FaithfulIsPathSafe(e);
      TickingIsLawful();
      FaithfulIsLiteralSafe(e);
    }
  }
}
