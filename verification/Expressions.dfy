/** Filter expressions, the RPN they are flattened to, and the two peephole passes that follow. */
module Expressions {
  import opened Optional

  datatype Lit = Num(n: real) | Str(s: string) | Bool(b: bool) | Null

  /** The trees the jsep parser builds. `Member` is `o.p`, `Index` is `o[i]`; `Binary` also stands
      for the logical operators, which are compiled by the same branch. */
  datatype Expr =
    | Literal(value: Lit)
    | Identifier(name: string)
    | Member(owner: Expr, property: string)
    | Index(owner: Expr, index: Expr)
    | Unary(op: string, argument: Expr)
    | Binary(op: string, left: Expr, right: Expr)
    | Conditional(test: Expr, consequent: Expr, alternate: Expr)
    | Call(callee: Expr, arguments: seq<Expr>)
    | ArrayExpression(elements: seq<Expr>)
    | This

  datatype Node =
    | LiteralNode(value: Lit)
    | IdentifierNode(name: string)
    | MemberNode(part: Option<string>)
    | MethodCallNode(target: Option<string>, argc: nat)
    | FunctionCallNode(target: Option<string>, argc: nat)
    | BinaryNode(op: string)
    | UnaryNode(op: string)
    | ConditionalNode

  function Last<T>(s: seq<T>): T
    requires s != []
  {
    s[|s| - 1]
  }

  function Front<T>(s: seq<T>): seq<T>
    requires s != []
  {
    s[..|s| - 1]
  }

  // ---------------------------------------------------------------- flattening

  /** The `name` field of a property node: only identifiers have one. */
  function IdentifierName(e: Expr): Option<string> {
    if e.Identifier? then Some(e.name) else None
  }

  function Code(e: Expr): seq<Node>
    decreases e, 1
  {
    match e
    case Literal(v) => [LiteralNode(v)]
    case Identifier(name) => [IdentifierNode(name)]
    case Member(o, p) => Code(o) + [MemberNode(Some(p))]
    case Index(o, i) => Code(o) + Code(i) + [MemberNode(None)]
    case Unary(op, a) => Code(a) + [UnaryNode(op)]
    case Binary(op, l, r) => Code(r) + Code(l) + [BinaryNode(op)]
    case Conditional(t, c, a) => Code(t) + Code(c) + Code(a) + [ConditionalNode]
    case Call(callee, args) =>
      (match callee
       case Identifier(f) => ListCode(args) + [FunctionCallNode(Some(f), |args|)]
       case Member(o, p) => ListCode(args) + Code(callee) + [MethodCallNode(Some(p), |args|)]
       case Index(o, i) => ListCode(args) + Code(callee) + [MethodCallNode(IdentifierName(i), |args|)]
       case _ => ListCode(args) + Code(callee) + [FunctionCallNode(None, |args|)])
    case ArrayExpression(es) => ListCode(es)
    case This => []
  }

  /** Lists are flattened from the last element to the first. */
  function ListCode(es: seq<Expr>): seq<Node>
    decreases es, 0
  {
    if es == [] then [] else ListCode(es[1..]) + Code(es[0])
  }

  /** The shared `context` array that `toRpn` appends to. */
  class Emitter {
    var context: seq<Node>

    constructor ()
      ensures context == []
    {
      context := [];
    }

    method Push(node: Node)
      modifies this
      ensures context == old(context) + [node]
    {
      context := context + [node];
    }

    method EvaluateArray(list: seq<Expr>)
      modifies this
      ensures context == old(context) + ListCode(list)
      decreases list, 0
    {
      var i := |list|;
      assert list[i..] == [];
      while i > 0
        invariant 0 <= i <= |list|
        invariant context == old(context) + ListCode(list[i..])
      {
        i := i - 1;
        assert list[i..][1..] == list[i + 1..];
        ToRpn(list[i]);
      }
      assert list[0..] == list;
    }

    method VisitMemberExpression(node: Expr)
      requires node.Member? || node.Index?
      modifies this
      ensures context == old(context) + Code(node)
      decreases node, 0
    {
      ToRpn(node.owner);
      if node.Index? {
        ToRpn(node.index);
        Push(MemberNode(None));
      } else {
        Push(MemberNode(Some(node.property)));
      }
    }

    method VisitCallExpression(node: Expr)
      requires node.Call?
      modifies this
      ensures context == old(context) + Code(node)
      decreases node, 0
    {
      var callee, argc := node.callee, |node.arguments|;
      EvaluateArray(node.arguments);
      if callee.Member? || callee.Index? {
        VisitMemberExpression(callee);
        Push(MethodCallNode(if callee.Member? then Some(callee.property) else IdentifierName(callee.index), argc));
      } else if callee.Identifier? {
        Push(FunctionCallNode(Some(callee.name), argc));
      } else {
        ToRpn(callee);
        Push(FunctionCallNode(None, argc));
      }
    }

    method Binop(node: Expr)
      requires node.Binary?
      modifies this
      ensures context == old(context) + Code(node)
      decreases node, 0
    {
      ToRpn(node.right);
      ToRpn(node.left);
      Push(BinaryNode(node.op));
    }

    method VisitConditional(node: Expr)
      requires node.Conditional?
      modifies this
      ensures context == old(context) + Code(node)
      decreases node, 0
    {
      ToRpn(node.test);
      ToRpn(node.consequent);
      ToRpn(node.alternate);
      Push(ConditionalNode);
    }

    method ToRpn(node: Expr)
      modifies this
      ensures context == old(context) + Code(node)
      decreases node, 1
    {
      match node
      case Literal(v) => Push(LiteralNode(v));
      case Identifier(name) => Push(IdentifierNode(name));
      case Member(_, _) => VisitMemberExpression(node);
      case Index(_, _) => VisitMemberExpression(node);
      case Unary(op, a) =>
        ToRpn(a);
        Push(UnaryNode(op));
      case Binary(_, _, _) => Binop(node);
      case Conditional(_, _, _) => VisitConditional(node);
      case Call(_, _) => VisitCallExpression(node);
      case ArrayExpression(es) => EvaluateArray(es);
      case This =>
    }
  }

  // ---------------------------------------------------------------- identifier paths

  /** `parts.join('.')` */
  function Join(parts: seq<string>): string
    requires parts != []
  {
    if |parts| == 1 then parts[0] else Join(Front(parts)) + "." + Last(parts)
  }

  /** An undefined part is joined as the empty string. */
  function PartText(name: Option<string>): string {
    if name.Some? then name.value else ""
  }

  /** What the inner loop of `optimizeIdentifiers` collects, and where it stops reading. */
  function TakePath(parts: seq<string>, rest: seq<Node>): (r: (seq<string>, seq<Node>))
    ensures |r.0| >= |parts|
    ensures |r.1| <= |rest|
    decreases |rest|
  {
    if rest != [] && rest[0].MemberNode? then
      if |rest| > 1 && rest[1].MethodCallNode? then (parts, rest[1..])
      else TakePath(parts + [PartText(rest[0].part)], rest[1..])
    else (parts, rest)
  }

  function FoldPaths(rpn: seq<Node>): seq<Node>
    decreases |rpn|
  {
    if rpn == [] then []
    else if rpn[0].IdentifierNode? then
      var (parts, rest) := TakePath([rpn[0].name], rpn[1..]);
      [IdentifierNode(Join(parts))] + FoldPaths(rest)
    else [rpn[0]] + FoldPaths(rpn[1..])
  }

  /** One turn of the inner loop, seen from index `j`. */
  lemma TakePathAt(parts: seq<string>, rpn: seq<Node>, j: nat)
    requires j <= |rpn|
    ensures TakePath(parts, rpn[j..]) ==
            if j < |rpn| && rpn[j].MemberNode? then
              if j + 1 < |rpn| && rpn[j + 1].MethodCallNode? then (parts, rpn[j + 1..])
              else TakePath(parts + [PartText(rpn[j].part)], rpn[j + 1..])
            else (parts, rpn[j..])
  {
    if j < |rpn| {
      assert rpn[j..][1..] == rpn[j + 1..];
    }
  }

  /** One turn of the outer loop, seen from index `i`. */
  lemma FoldPathsAt(rpn: seq<Node>, i: nat)
    requires i < |rpn|
    ensures FoldPaths(rpn[i..]) ==
            if rpn[i].IdentifierNode? then
              var (parts, rest) := TakePath([rpn[i].name], rpn[i + 1..]);
              [IdentifierNode(Join(parts))] + FoldPaths(rest)
            else [rpn[i]] + FoldPaths(rpn[i + 1..])
  {
    assert rpn[i..][1..] == rpn[i + 1..];
  }

  lemma FoldPathsEnd(rpn: seq<Node>)
    ensures FoldPaths(rpn[|rpn|..]) == [] && rpn[0..] == rpn
  {
  }

  lemma Regrouped<T>(a: seq<T>, x: T, b: seq<T>)
    ensures (a + [x]) + b == a + ([x] + b)
  {
  }

  method OptimizeIdentifiers(rpn: seq<Node>) returns (result: seq<Node>)
    ensures result == FoldPaths(rpn)
  {
    hide FoldPaths, TakePath, Join, PartText;
    result := [];
    var i := 0;
    FoldPathsEnd(rpn);
    while i < |rpn|
      invariant 0 <= i <= |rpn|
      invariant result + FoldPaths(rpn[i..]) == FoldPaths(rpn)
    {
      var node := rpn[i];
      FoldPathsAt(rpn, i);
      if node.IdentifierNode? {
        var j := i + 1;
        var idParts := [node.name];
        ghost var path := TakePath(idParts, rpn[j..]);
        ghost var start := i;
        while j < |rpn| && rpn[j].MemberNode?
          invariant start < j <= |rpn| && j == i + 1
          invariant idParts != [] && TakePath(idParts, rpn[j..]) == path
          decreases |rpn| - j
        {
          TakePathAt(idParts, rpn, j);
          if j + 1 < |rpn| && rpn[j + 1].MethodCallNode? {
            i := i + 1;
            break;
          }
          idParts := idParts + [PartText(rpn[j].part)];
          j := j + 1;
          i := i + 1;
        }
        assert path == (idParts, rpn[i + 1..]) by {
          TakePathAt(idParts, rpn, j);
        }
        var idNode := IdentifierNode(Join(idParts));
        Regrouped(result, idNode, FoldPaths(rpn[i + 1..]));
        result := result + [idNode];
      } else {
        Regrouped(result, node, FoldPaths(rpn[i + 1..]));
        result := result + [node];
      }
      i := i + 1;
    }
  }

  // ---------------------------------------------------------------- unary operators on literals

  function TypeOf(v: Lit): string {
    match v
    case Num(_) => "number"
    case Str(_) => "string"
    case Bool(_) => "boolean"
    case Null => "object"
  }

  predicate Truthy(v: Lit) {
    match v
    case Num(n) => n != 0.0
    case Str(s) => s != ""
    case Bool(b) => b
    case Null => false
  }

  /** What `optimizeUnary` does with a unary operator that follows a literal. */
  datatype Fold = Replace(value: Lit) | Keep | Skip

  function FoldOf(op: string, v: Lit): Fold {
    if op == "typeof" then Replace(Str(TypeOf(v)))
    else if op == "!!" then Replace(Bool(Truthy(v)))
    else if op == "-" then if v.Num? then Replace(Num(-1.0 * v.n)) else Keep
    else if op == "+" then Skip
    else if op == "!" then if v.Bool? then Replace(Bool(!v.b)) else Keep
    else Skip
  }

  predicate AfterLiteral(rpn: seq<Node>) {
    |rpn| > 1 && Last(rpn).UnaryNode? && Last(Front(rpn)).LiteralNode?
  }

  /** A fold pops the last node of the result, whatever it is, and pushes the new literal. */
  function FoldUnary(rpn: seq<Node>): seq<Node>
    decreases |rpn|
  {
    if rpn == [] then []
    else
      var done := FoldUnary(Front(rpn));
      if AfterLiteral(rpn) then
        match FoldOf(Last(rpn).op, Last(Front(rpn)).value)
        case Replace(v) => (if done == [] then [] else Front(done)) + [LiteralNode(v)]
        case Keep => done + [Last(rpn)]
        case Skip => done
      else done + [Last(rpn)]
  }

  method OptimizeUnary(rpn: seq<Node>) returns (result: seq<Node>)
    ensures result == FoldUnary(rpn)
  {
    result := [];
    var i := 0;
    while i < |rpn|
      invariant 0 <= i <= |rpn|
      invariant result == FoldUnary(rpn[..i])
    {
      var node := rpn[i];
      assert Front(rpn[..i + 1]) == rpn[..i] && Last(rpn[..i + 1]) == node;
      if node.UnaryNode? && i > 0 && rpn[i - 1].LiteralNode? {
        var val := rpn[i - 1].value;
        var fold := FoldOf(node.op, val);
        if fold.Replace? {
          if result != [] {
            result := Front(result);
          }
          result := result + [LiteralNode(fold.value)];
        } else if fold.Keep? {
          result := result + [node];
        }
      } else {
        result := result + [node];
      }
      i := i + 1;
    }
    assert rpn[..|rpn|] == rpn;
  }

  function Compile(e: Expr): seq<Node> {
    FoldUnary(FoldPaths(Code(e)))
  }

  lemma CodeOfUnary(op: string, v: Lit)
    ensures FoldPaths(Code(Unary(op, Literal(v)))) == [LiteralNode(v), UnaryNode(op)]
  {
    var unary: seq<Node> := [UnaryNode(op)];
    var code := [LiteralNode(v), UnaryNode(op)];
    assert Code(Unary(op, Literal(v))) == [LiteralNode(v)] + unary == code;
    assert unary[1..] == [] && FoldPaths([]) == [];
    assert FoldPaths(unary) == [unary[0]] + FoldPaths(unary[1..]) == unary;
    assert code[1..] == unary;
    assert FoldPaths(code) == [code[0]] + FoldPaths(code[1..]);
  }

  /** What a unary operator on a literal compiles to, value by value. */
  lemma CompileUnaryLiteral(op: string, v: Lit)
    ensures var rpn := Compile(Unary(op, Literal(v)));
            && (op == "!!" ==>
                  && |rpn| == 1 && rpn[0].LiteralNode? && rpn[0].value.Bool?
                  && (rpn[0].value.b <==> v != Num(0.0) && v != Str("") && v != Bool(false) && v != Null))
            && (op == "typeof" ==>
                  rpn == [LiteralNode(Str(match v
                                          case Num(_) => "number"
                                          case Str(_) => "string"
                                          case Bool(_) => "boolean"
                                          case Null => "object"))])
            && (op == "-" && v.Num? ==>
                  |rpn| == 1 && rpn[0].LiteralNode? && rpn[0].value.Num? && rpn[0].value.n + v.n == 0.0)
            && (op == "!" && v.Bool? ==>
                  |rpn| == 1 && rpn[0].LiteralNode? && rpn[0].value.Bool? && rpn[0].value.b != v.b)
            && ((op == "-" && !v.Num?) || (op == "!" && !v.Bool?) ==> rpn == [LiteralNode(v), UnaryNode(op)])
            && (op !in ["!!", "typeof", "-", "!"] ==> rpn == [LiteralNode(v)])
  {
    CodeOfUnary(op, v);
    FoldOne(op, v);
    hide FoldUnary, FoldPaths, Code;
  }

  lemma FoldOne(op: string, v: Lit)
    ensures FoldUnary([LiteralNode(v), UnaryNode(op)]) ==
            match FoldOf(op, v)
            case Replace(w) => [LiteralNode(w)]
            case Keep => [LiteralNode(v), UnaryNode(op)]
            case Skip => [LiteralNode(v)]
  {
    hide FoldOf;
    var literal, both := [LiteralNode(v)], [LiteralNode(v), UnaryNode(op)];
    assert Front(both) == literal && Front(literal) == [] && Last(both) == UnaryNode(op);
    assert FoldUnary([]) == [] && !AfterLiteral(literal);
    assert FoldUnary(literal) == [] + literal == literal;
    assert AfterLiteral(both) && literal + [UnaryNode(op)] == both;
    assert forall w :: Front(literal) + [LiteralNode(w)] == [LiteralNode(w)];
  }

  /** The tokens of an operator, a choice and a call: right operand before left, last argument first. */
  lemma TokensInOrder(op: string, a: Lit, b: Lit, c: Lit)
    ensures Compile(Binary(op, Literal(a), Literal(b))) == [LiteralNode(b), LiteralNode(a), BinaryNode(op)]
    ensures Compile(Conditional(Literal(a), Literal(b), Literal(c))) ==
            [LiteralNode(a), LiteralNode(b), LiteralNode(c), ConditionalNode]
    ensures Compile(Call(Identifier(op), [Literal(a), Literal(b)])) ==
            [LiteralNode(b), LiteralNode(a), FunctionCallNode(Some(op), 2)]
  {
    hide FoldPaths, FoldUnary;
    var x, y, z := LiteralNode(a), LiteralNode(b), LiteralNode(c);
    assert Code(Binary(op, Literal(a), Literal(b))) == [y, x, BinaryNode(op)];
    Kept([y, x, BinaryNode(op)]);
    assert Code(Conditional(Literal(a), Literal(b), Literal(c))) == [x, y, z, ConditionalNode];
    Kept([x, y, z, ConditionalNode]);
    CallTokens(op, a, b);
    Kept([y, x, FunctionCallNode(Some(op), 2)]);
  }

  lemma CallTokens(f: string, a: Lit, b: Lit)
    ensures Code(Call(Identifier(f), [Literal(a), Literal(b)])) ==
            [LiteralNode(b), LiteralNode(a), FunctionCallNode(Some(f), 2)]
  {
    var one, args := [Literal(b)], [Literal(a), Literal(b)];
    assert one[1..] == [] && args[1..] == one;
    assert ListCode(one) == ListCode(one[1..]) + Code(one[0]) == [LiteralNode(b)];
    assert ListCode(args) == ListCode(args[1..]) + Code(args[0]) == [LiteralNode(b), LiteralNode(a)];
  }

  /** Code without identifiers and unary operators stays as it is. */
  lemma {:induction false} Kept(code: seq<Node>)
    requires forall i :: 0 <= i < |code| ==> !code[i].IdentifierNode? && !code[i].UnaryNode?
    ensures FoldPaths(code) == code && FoldUnary(code) == code
    decreases |code|
  {
    if code != [] {
      Kept(code[1..]);
      assert [code[0]] + code[1..] == code;
      Kept(Front(code));
      assert Front(code) + [Last(code)] == code;
    }
  }

  /** A computed index that is an identifier is taken for a path: its nameless member node joins it. */
  lemma ComputedIndexMangled(a: string, b: string)
    ensures Compile(Index(Identifier(a), Identifier(b))) == [IdentifierNode(a), IdentifierNode(b + ".")]
  {
    var x, y, member := IdentifierNode(a), IdentifierNode(b), MemberNode(None);
    var code, rest, last := [x, y, member], [y, member], [member];
    assert Code(Index(Identifier(a), Identifier(b))) == [x] + [y] + last == code;
    assert code[1..] == rest && rest[1..] == last && last[1..] == [];
    var parts := [b] + [PartText(None)];
    assert TakePath([a], rest) == ([a], rest);
    assert TakePath([b], last) == TakePath(parts, []) == (parts, []);
    assert Front(parts) == [b] && Join(parts) == b + "." + "" == b + ".";
    var folded := [x, IdentifierNode(b + ".")];
    assert FoldPaths(rest) == [IdentifierNode(b + ".")] + FoldPaths([]) == [IdentifierNode(b + ".")];
    assert FoldPaths(code) == [IdentifierNode(Join([a]))] + FoldPaths(rest) == folded;
    assert Front(folded) == [x] && Front([x]) == [];
    assert FoldUnary([x]) == [] + [x] == [x];
    assert FoldUnary(folded) == [x] + [IdentifierNode(b + ".")] == folded;
  }

  method ConvertToRpn(e: Expr) returns (rpn: seq<Node>)
    ensures rpn == Compile(e)
  {
    var emitter := new Emitter();
    emitter.ToRpn(e);
    assert emitter.context == Code(e);
    var items := OptimizeIdentifiers(emitter.context);
    rpn := OptimizeUnary(items);
  }
}
