/** The code a template compiles to. */
module Compiler {
  import opened Options
  import opened Json
  import opened Bytecodes
  import opened Templates

  type Code = seq<Bytecode>

  /** `args` is a bit-field of 30 bits. */
  const ARGS_LIMIT: nat := 0x4000_0000

  /** `append_function`: a trailing push becomes the operator's immediate argument. */
  function AppendFunction(code: Code, op: Op, numArgs: nat): (r: Code)
    ensures |r| >= 1 && |r| >= |code| && r[|r| - 1].op == op
  {
    if code != [] && code[|code| - 1].op.Push? then
      code[|code| - 1 := code[|code| - 1].(op := op, args := numArgs % ARGS_LIMIT)]
    else
      code + [Plain(op, numArgs % ARGS_LIMIT)]
  }

  predicate EndsWithLiteral(code: Code) {
    code != [] && code[|code| - 1].op.Push? && code[|code| - 1].flag.Immediate?
  }

  /** `append_callback`: only a literal can merge, because a lookup needs `str` for itself. */
  function AppendCallback(code: Code, name: string, numArgs: nat): (r: Code)
    ensures |r| >= 1 && |r| >= |code| && r[|r| - 1].op.Callback?
  {
    if EndsWithLiteral(code) then
      code[|code| - 1 := code[|code| - 1].(op := Callback, args := numArgs % ARGS_LIMIT, str := name)]
    else
      code + [Plain(Callback, numArgs % ARGS_LIMIT).(str := name)]
  }

  /** The swap the parser does before it appends `Default`. */
  function SwapLastTwo(code: Code): Code
    requires |code| >= 2
  {
    code[|code| - 1 := code[|code| - 2]][|code| - 2 := code[|code| - 1]]
  }

  function PushLiteral(v: Json): Bytecode { Bytecode(Push, 0, Immediate, v, "") }

  function PushLookup(pointer: bool, name: string): Bytecode {
    Bytecode(Push, 0, if pointer then LookupPointer else LookupDot, Null, name)
  }

  predicate Leaf(e: Expr) { e.Literal? || e.Lookup? }

  /** Post-order code of an expression, with trailing pushes fused. */
  function ExprCode(pointer: bool, e: Expr): (code: Code)
    ensures |code| >= 1
    ensures Leaf(e) ==> |code| == 1
    ensures code[|code| - 1].op.Push? <==> Leaf(e)
    ensures EndsWithLiteral(code) <==> e.Literal?
    decreases e, 0
  {
    match e
    case Literal(v) => [PushLiteral(v)]
    case Lookup(name) => [PushLookup(pointer, name)]
    case Operation(op, args) =>
      var code := ArgsCode(pointer, args);
      var op' := if op.Push? then Nop else op;  // `Push` is no operator
      AppendFunction(if op.Default? && |args| == 2 then SwapLastTwo(code) else code, op', |args|)
    case Invoke(name, args) =>
      AppendCallback(ArgsCode(pointer, args), name, |args|)
  }

  function ArgsCode(pointer: bool, es: seq<Expr>): (code: Code)
    ensures |code| >= |es|
    ensures es != [] ==> (EndsWithLiteral(code) <==> es[|es| - 1].Literal?)
    ensures es != [] ==> (code[|code| - 1].op.Push? <==> Leaf(es[|es| - 1]))
    decreases es, 1
  {
    if es == [] then []
    else ArgsCode(pointer, es[..|es| - 1]) + ExprCode(pointer, es[|es| - 1])
  }

  // ----- Templates; every address is absolute -----

  function BodySize(pointer: bool, b: Body): nat {
    match b
    case Nil => 0
    case Cons(head, rest) => NodeSize(pointer, head) + BodySize(pointer, rest)
  }

  function NodeSize(pointer: bool, n: Node): nat {
    match n
    case Text(_) => 1
    case Comment => 0
    case Print(e) => |AppendFunction(ExprCode(pointer, e), PrintValue, 1)|
    case If(_, chain) => ChainSize(pointer, chain)
    case ForItem(_, _, over, body, _) => |ExprCode(pointer, over)| + 1 + BodySize(pointer, body) + 1
    case ForEntry(_, _, _, over, body, _) => |ExprCode(pointer, over)| + 1 + BodySize(pointer, body) + 1
  }

  function ChainSize(pointer: bool, c: Chain): nat {
    |ExprCode(pointer, c.cond)| + 1 + BodySize(pointer, c.yes) + TailSize(pointer, c.tail)
  }

  function TailSize(pointer: bool, t: Tail): nat {
    match t
    case EndIf(_) => 0
    case Else(_, no, _) => 1 + BodySize(pointer, no)
    case ElseIf(_, next) => 1 + ChainSize(pointer, next)
  }

  function BodyCode(pointer: bool, b: Body, at: nat): (code: Code)
    ensures |code| == BodySize(pointer, b)
    decreases b, 0
  {
    match b
    case Nil => []
    case Cons(head, rest) =>
      NodeCode(pointer, head, at) + BodyCode(pointer, rest, at + NodeSize(pointer, head))
  }

  function NodeCode(pointer: bool, n: Node, at: nat): (code: Code)
    ensures |code| == NodeSize(pointer, n)
    decreases n, 0
  {
    match n
    case Text(text) => [Plain(PrintText, 0).(str := text)]
    case Comment => []
    case Print(e) => AppendFunction(ExprCode(pointer, e), PrintValue, 1)
    case If(_, chain) => ChainCode(pointer, chain, at, at + ChainSize(pointer, chain))
    case ForItem(_, item, over, body, _) => LoopCode(pointer, Null, item, over, body, at)
    case ForEntry(_, key, item, over, body, _) => LoopCode(pointer, String(key), item, over, body, at)
  }

  function LoopCode(pointer: bool, key: Json, item: string, over: Expr, body: Body, at: nat): (code: Code)
    ensures |code| == |ExprCode(pointer, over)| + 1 + BodySize(pointer, body) + 1
    decreases body, 1
  {
    var first := at + |ExprCode(pointer, over)| + 1;
    ExprCode(pointer, over)
    + [Bytecode(StartLoop, first + BodySize(pointer, body), Pop, key, item)]
    + BodyCode(pointer, body, first)
    + [Plain(EndLoop, first)]
  }

  /** `end` is the address of the code after the whole if/else-if/else chain. */
  function ChainCode(pointer: bool, c: Chain, at: nat, end: nat): (code: Code)
    ensures |code| == ChainSize(pointer, c)
    decreases c, 0
  {
    var first := at + |ExprCode(pointer, c.cond)| + 1;
    var next := first + BodySize(pointer, c.yes);
    ExprCode(pointer, c.cond)
    + [Plain(ConditionalJump, if c.tail.EndIf? then end else next + 1)]
    + BodyCode(pointer, c.yes, first)
    + TailCode(pointer, c.tail, next, end)
  }

  function TailCode(pointer: bool, t: Tail, at: nat, end: nat): (code: Code)
    ensures |code| == TailSize(pointer, t)
    decreases t, 0
  {
    match t
    case EndIf(_) => []
    case Else(_, no, _) => [Plain(Jump, end)] + BodyCode(pointer, no, at + 1)
    case ElseIf(_, next) => [Plain(Jump, end)] + ChainCode(pointer, next, at + 1, end)
  }

  // ----- Which expressions the one-pass scheme gets right -----

  /** The code of `e` begins with a call without arguments. */
  predicate StartsWithNullaryCall(e: Expr) {
    match e
    case Literal(_) => false
    case Lookup(_) => false
    case Operation(_, args) => args != [] && StartsWithNullaryCall(args[0])
    case Invoke(_, args) => args == [] || StartsWithNullaryCall(args[0])
  }

  /** No argument that begins with a nullary call follows a literal argument. */
  predicate NoLiteralBeforeNullary(args: seq<Expr>) {
    forall i :: 0 < i < |args| && args[i - 1].Literal? ==> !StartsWithNullaryCall(args[i])
  }

  /**
   * `default(a, b)`: `a` is a literal or a lookup, and every instruction of `b` but the last
   * is the push of `a` (so `b` being a single instruction is enough).
   */
  predicate DefaultFits(pointer: bool, a: Expr, b: Expr) {
    && Leaf(a)
    && forall i :: 0 <= i < |ExprCode(pointer, b)| - 1 ==> ExprCode(pointer, b)[i] == ExprCode(pointer, a)[0]
  }

  /** The code of `e` stays in one piece whatever code it is appended to, but for the very start of it. */
  predicate Compiles(e: Expr) {
    match e
    case Literal(_) => true
    case Lookup(_) => true
    case Operation(op, args) =>
      && |args| == Arity(op) > 0
      && (forall a :: a in args ==> Compiles(a))
      && NoLiteralBeforeNullary(args)
    case Invoke(name, args) => NoLiteralBeforeNullary(args) && forall a :: a in args ==> Compiles(a)
  }

  /** Every `default` in `e` fits, and every callback's number of arguments fits its field. */
  predicate CallsFit(pointer: bool, e: Expr) {
    match e
    case Literal(_) => true
    case Lookup(_) => true
    case Operation(op, args) =>
      && (forall a :: a in args ==> CallsFit(pointer, a))
      && (op.Default? && |args| == 2 ==> DefaultFits(pointer, args[0], args[1]))
    case Invoke(_, args) => |args| < 0x4000_0000 && forall a :: a in args ==> CallsFit(pointer, a)
  }

  /** The code of `e` means what `e` means. */
  predicate Fits(pointer: bool, e: Expr) {
    Compiles(e) && CallsFit(pointer, e)
  }

  // ----- What the code means, whatever the defaults -----

  /** Every callback's number of arguments fits its field. */
  predicate Counted(e: Expr) {
    match e
    case Literal(_) => true
    case Lookup(_) => true
    case Operation(_, args) => forall a :: a in args ==> Counted(a)
    case Invoke(_, args) => |args| < 0x4000_0000 && forall a :: a in args ==> Counted(a)
  }

  /** The argument of the call `b` whose push stands right before the call's own instruction. */
  function Penultimate(b: Expr): int
    requires !Leaf(b)
    ensures Penultimate(b) < |b.args| || b.args == []
  {
    if b.Invoke? && b.args != [] && b.args[|b.args| - 1].Lookup? then |b.args| - 1 else |b.args| - 2
  }

  /** The last instruction but one of `b` is a push, so that the swap behind `b` moves an argument of `b` out of it. */
  predicate Rotatable(b: Expr) {
    && !Leaf(b)
    && if b.Operation? && b.op.Default? then |b.args| == 2 && Leaf(b.args[1])
       else
         var k := Penultimate(b);
         k >= 0 && Leaf(b.args[k]) && (k == |b.args| - 2 ==> Leaf(b.args[k + 1]))
  }

  /** The argument that the swap moves out. */
  function Moved(b: Expr): (y: Expr)
    requires Rotatable(b)
    ensures Leaf(y)
  {
    if b.Operation? && b.op.Default? then b.args[1] else b.args[Penultimate(b)]
  }

  /** What is left of `b` once `a` has taken that argument's place on the stack, below the others. */
  function Shifted(a: Expr, b: Expr): Expr
    requires Rotatable(b)
  {
    if b.Operation? && b.op.Default? then Operation(Default, [b.args[0], a])
    else var k := Penultimate(b); b.(args := [a] + b.args[..k] + b.args[k + 1..])
  }

  /**
   * What the code of `e` does: `default(a, b)` with a one-instruction `b` is right when `a` is a leaf. Behind a longer `b`
   * the swap takes an argument of `b` for the first argument of `default`, and `a` for an argument of `b`. In all other
   * cases `default` is left without an operand, and there is no such expression.
   */
  function Actual(pointer: bool, e: Expr): (r: Option<Expr>)
    ensures Leaf(e) ==> r == Some(e)
    ensures r.Some? && !Leaf(e) ==> !Leaf(r.value)
    decreases e, 0
  {
    match e
    case Literal(_) => Some(e)
    case Lookup(_) => Some(e)
    case Operation(op, args) =>
      var actual :- ActualArgs(pointer, args);
      if !(op.Default? && |args| == 2) then Some(Operation(op, actual))
      else if |ExprCode(pointer, args[1])| == 1 then
        if Leaf(args[0]) then Some(Operation(op, actual)) else None
      else if Rotatable(actual[1]) then Some(Operation(op, [Moved(actual[1]), Shifted(actual[0], actual[1])]))
      else None
    case Invoke(name, args) =>
      var actual :- ActualArgs(pointer, args);
      Some(Invoke(name, actual))
  }

  function ActualArgs(pointer: bool, es: seq<Expr>): (r: Option<seq<Expr>>)
    ensures r.Some? ==> |r.value| == |es|
    decreases es, 1
  {
    if es == [] then Some([])
    else
      var front :- ActualArgs(pointer, es[..|es| - 1]);
      var last :- Actual(pointer, es[|es| - 1]);
      Some(front + [last])
  }

  lemma {:induction false} ActualArgsEach(pointer: bool, es: seq<Expr>)
    ensures ActualArgs(pointer, es).Some? <==> forall i :: 0 <= i < |es| ==> Actual(pointer, es[i]).Some?
    ensures ActualArgs(pointer, es).Some? ==>
              forall i :: 0 <= i < |es| ==> Actual(pointer, es[i]) == Some(ActualArgs(pointer, es).value[i])
  {
    hide Actual;
    if es != [] {
      var front := es[..|es| - 1];
      ActualArgsEach(pointer, front);
      assert forall i :: 0 <= i < |front| ==> front[i] == es[i];
    }
  }

  /** The code of `e` does what some expression means. */
  predicate Sound(pointer: bool, e: Expr) {
    Compiles(e) && Counted(e) && Actual(pointer, e).Some?
  }

  predicate SoundBody(pointer: bool, b: Body) {
    match b
    case Nil => true
    case Cons(head, rest) => SoundNode(pointer, head) && SoundBody(pointer, rest)
  }

  predicate SoundNode(pointer: bool, n: Node) {
    match n
    case Text(_) => true
    case Comment => true
    case Print(e) => Sound(pointer, e)
    case If(_, chain) => SoundChain(pointer, chain)
    case ForItem(_, _, over, body, _) => Sound(pointer, over) && SoundBody(pointer, body)
    case ForEntry(_, _, _, over, body, _) => Sound(pointer, over) && SoundBody(pointer, body)
  }

  predicate SoundChain(pointer: bool, c: Chain) {
    Sound(pointer, c.cond) && SoundBody(pointer, c.yes) && SoundTail(pointer, c.tail)
  }

  predicate SoundTail(pointer: bool, t: Tail) {
    match t
    case EndIf(_) => true
    case Else(_, no, _) => SoundBody(pointer, no)
    case ElseIf(_, next) => SoundChain(pointer, next)
  }

  /** The template with every expression replaced by what its code does; expressions without one stay. */
  function ActualBody(pointer: bool, b: Body): Body {
    match b
    case Nil => Nil
    case Cons(head, rest) => Cons(ActualNode(pointer, head), ActualBody(pointer, rest))
  }

  function ActualExpr(pointer: bool, e: Expr): Expr {
    match Actual(pointer, e)
    case None => e
    case Some(actual) => actual
  }

  function ActualNode(pointer: bool, n: Node): Node {
    match n
    case Text(_) => n
    case Comment => n
    case Print(e) => Print(ActualExpr(pointer, e))
    case If(open, chain) => If(open, ActualChain(pointer, chain))
    case ForItem(open, item, over, body, close) =>
      ForItem(open, item, ActualExpr(pointer, over), ActualBody(pointer, body), close)
    case ForEntry(open, key, item, over, body, close) =>
      ForEntry(open, key, item, ActualExpr(pointer, over), ActualBody(pointer, body), close)
  }

  function ActualChain(pointer: bool, c: Chain): Chain {
    Chain(ActualExpr(pointer, c.cond), ActualBody(pointer, c.yes), ActualTail(pointer, c.tail))
  }

  function ActualTail(pointer: bool, t: Tail): Tail {
    match t
    case EndIf(_) => t
    case Else(open, no, close) => Else(open, ActualBody(pointer, no), close)
    case ElseIf(open, next) => ElseIf(open, ActualChain(pointer, next))
  }

  predicate FitsBody(pointer: bool, b: Body) {
    match b
    case Nil => true
    case Cons(head, rest) => FitsNode(pointer, head) && FitsBody(pointer, rest)
  }

  predicate FitsNode(pointer: bool, n: Node) {
    match n
    case Text(_) => true
    case Comment => true
    case Print(e) => Fits(pointer, e)
    case If(_, chain) => FitsChain(pointer, chain)
    case ForItem(_, _, over, body, _) => Fits(pointer, over) && FitsBody(pointer, body)
    case ForEntry(_, _, _, over, body, _) => Fits(pointer, over) && FitsBody(pointer, body)
  }

  predicate FitsChain(pointer: bool, c: Chain) {
    Fits(pointer, c.cond) && FitsBody(pointer, c.yes) && FitsTail(pointer, c.tail)
  }

  predicate FitsTail(pointer: bool, t: Tail) {
    match t
    case EndIf(_) => true
    case Else(_, no, _) => FitsBody(pointer, no)
    case ElseIf(_, next) => FitsChain(pointer, next)
  }

  predicate CompilesBody(b: Body) {
    match b
    case Nil => true
    case Cons(head, rest) => CompilesNode(head) && CompilesBody(rest)
  }

  predicate CompilesNode(n: Node) {
    match n
    case Text(_) => true
    case Comment => true
    case Print(e) => Compiles(e)
    case If(_, chain) => CompilesChain(chain)
    case ForItem(_, _, over, body, _) => Compiles(over) && CompilesBody(body)
    case ForEntry(_, _, _, over, body, _) => Compiles(over) && CompilesBody(body)
  }

  predicate CompilesChain(c: Chain) {
    Compiles(c.cond) && CompilesBody(c.yes) && CompilesTail(c.tail)
  }

  predicate CompilesTail(t: Tail) {
    match t
    case EndIf(_) => true
    case Else(_, no, _) => CompilesBody(no)
    case ElseIf(_, next) => CompilesChain(next)
  }

  lemma {:induction false} SoundCompiles(pointer: bool, b: Body)
    requires SoundBody(pointer, b)
    ensures CompilesBody(b)
    decreases b, 0
  {
    hide Compiles, Counted, Actual;
    if b.Cons? {
      match b.head {
        case If(_, chain) => ChainCompiles(pointer, chain);
        case ForItem(_, _, _, body, _) => SoundCompiles(pointer, body);
        case ForEntry(_, _, _, _, body, _) => SoundCompiles(pointer, body);
        case _ =>
      }
      SoundCompiles(pointer, b.rest);
    }
  }

  lemma {:induction false} ChainCompiles(pointer: bool, c: Chain)
    requires SoundChain(pointer, c)
    ensures CompilesChain(c)
    decreases c, 0
  {
    hide Compiles, Counted, Actual;
    SoundCompiles(pointer, c.yes);
    match c.tail {
      case EndIf(_) =>
      case Else(_, no, _) => SoundCompiles(pointer, no);
      case ElseIf(_, next) => ChainCompiles(pointer, next);
    }
  }

  /** The code `default` is meant to have: the fallback pushed, the first argument in the immediate. */
  function IntendedDefault(pointer: bool, a: Expr, b: Expr): Code
    requires Leaf(a)
  {
    ExprCode(pointer, b) + [ExprCode(pointer, a)[0].(op := Default, args := 2)]
  }

  /** Swapping the last two instructions gives that code exactly when `DefaultFits`. */
  lemma DefaultSwapExact(pointer: bool, a: Expr, b: Expr)
    requires Leaf(a)
    ensures ExprCode(pointer, Operation(Default, [a, b])) == IntendedDefault(pointer, a, b)
       <==> DefaultFits(pointer, a, b)
  {
    ArgsOfTwo(pointer, a, b);
    var ca, cb := ExprCode(pointer, a), ExprCode(pointer, b);
    assert ca == [ca[0]];
    if DefaultFits(pointer, a, b) {
      SwapFits(ca[0], cb);
    }
    if ExprCode(pointer, Operation(Default, [a, b])) == IntendedDefault(pointer, a, b) {
      forall i | 0 <= i < |cb| - 1 ensures cb[i] == ca[0] {
        SwapForces(ca[0], cb, i);
      }
    }
  }

  lemma SwapFits(push: Bytecode, cb: Code)
    requires |cb| >= 1 && push.op.Push?
    requires forall i :: 0 <= i < |cb| - 1 ==> cb[i] == push
    ensures AppendFunction(SwapLastTwo([push] + cb), Default, 2) == cb + [push.(op := Default, args := 2)]
  {
    assert SwapLastTwo([push] + cb) == cb + [push];
  }

  lemma {:induction false} SwapForces(push: Bytecode, cb: Code, i: nat)
    requires |cb| >= 1 && push.op.Push? && i < |cb| - 1
    requires AppendFunction(SwapLastTwo([push] + cb), Default, 2) == cb + [push.(op := Default, args := 2)]
    ensures cb[i] == push
  {
    var swapped := SwapLastTwo([push] + cb);
    var code := AppendFunction(swapped, Default, 2);
    assert |swapped| == |cb| + 1 == |code|;
    assert code[i] == swapped[i] == ([push] + cb)[i];
    assert code[i] == cb[i];
    if i > 0 { SwapForces(push, cb, i - 1); }
  }

  lemma ArgsOfOne(pointer: bool, a: Expr)
    ensures ArgsCode(pointer, [a]) == ExprCode(pointer, a)
  {
    hide ExprCode;
    assert [a][..0] == [] && [a][0] == a;
    assert ArgsCode(pointer, [a]) == [] + ExprCode(pointer, a);
  }

  lemma ArgsOfTwo(pointer: bool, a: Expr, b: Expr)
    ensures ArgsCode(pointer, [a, b]) == ExprCode(pointer, a) + ExprCode(pointer, b)
  {
    hide AppendFunction, AppendCallback, ExprCode;
    assert [a, b][..1] == [a] && [a, b][1] == b;
    ArgsOfOne(pointer, a);
  }
}
