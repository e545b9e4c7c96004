/** The shape of compiled control flow: every jump stays inside the program and loops are properly bracketed. */
module Discipline {
  import opened Json
  import opened Bytecodes
  import opened Templates
  import opened Compiler

  predicate Jumps(op: Op) {
    op.Jump? || op.ConditionalJump? || op.StartLoop? || op.EndLoop?
  }

  predicate Straight(code: Code) {
    forall i :: 0 <= i < |code| ==> !Jumps(code[i].op)
  }

  /**
   * The instruction at `i` of `code`, which starts at address `at`: forward jumps stay at or before `end`; a loop's
   * start names its end, and the end names the instruction behind the start.
   */
  predicate Lands(code: Code, at: nat, end: nat, i: nat)
    requires i < |code|
  {
    var bc := code[i];
    && (bc.op.Jump? || bc.op.ConditionalJump? ==> at + i < bc.args <= end)
    && (bc.op.StartLoop? ==>
          && at + i < bc.args < at + |code| && code[bc.args - at].op.EndLoop?
          && code[bc.args - at].args == at + i + 1)
    && (bc.op.EndLoop? ==>
          && at < bc.args <= at + i && code[bc.args - 1 - at].op.StartLoop?
          && code[bc.args - 1 - at].args == at + i)
  }

  predicate Structured(code: Code, at: nat, end: nat) {
    forall i :: 0 <= i < |code| ==> Lands(code, at, end, i)
  }

  lemma StraightIsStructured(code: Code, at: nat, end: nat)
    requires Straight(code)
    ensures Structured(code, at, end)
  {
  }

  lemma Joins(a: Code, b: Code, at: nat, end: nat)
    requires Structured(a, at, end) && Structured(b, at + |a|, end)
    ensures Structured(a + b, at, end)
  {
    forall i | 0 <= i < |a + b| ensures Lands(a + b, at, end, i) {
      if i < |a| {
        assert Lands(a, at, end, i) && (a + b)[i] == a[i];
      } else {
        assert Lands(b, at + |a|, end, i - |a|) && (a + b)[i] == b[i - |a|];
      }
    }
  }

  lemma Widens(code: Code, at: nat, end: nat, wider: nat)
    requires Structured(code, at, end) && end <= wider
    ensures Structured(code, at, wider)
  {
    forall i | 0 <= i < |code| ensures Lands(code, at, wider, i) { assert Lands(code, at, end, i); }
  }

  lemma ForwardJump(op: Op, at: nat, target: nat, end: nat)
    requires (op.Jump? || op.ConditionalJump?) && at < target <= end
    ensures Structured([Plain(op, target)], at, end)
  {
  }

  // ----- Expressions hold no jumps -----

  lemma AppendStaysStraight(code: Code, op: Op, n: nat)
    requires Straight(code) && !Jumps(op)
    ensures Straight(AppendFunction(code, op, n))
  {
  }

  lemma {:induction false} ExprStraight(pointer: bool, e: Expr)
    requires Compiles(e)
    ensures Straight(ExprCode(pointer, e))
    decreases e, 0
  {
    hide AppendFunction, AppendCallback, SwapLastTwo, ArgsCode, NoLiteralBeforeNullary, Straight;
    match e
    case Literal(_) => LeafStraight(pointer, e);
    case Lookup(_) => LeafStraight(pointer, e);
    case Operation(op, args) =>
      ArgsStraight(pointer, args);
      var code := ArgsCode(pointer, args);
      if op.Default? && |args| == 2 { SwapStaysStraight(code); }
      AppendStaysStraight(if op.Default? && |args| == 2 then SwapLastTwo(code) else code, if op.Push? then Nop else op, |args|);
    case Invoke(name, args) =>
      ArgsStraight(pointer, args);
      CallbackStaysStraight(ArgsCode(pointer, args), name, |args|);
  }

  lemma LeafStraight(pointer: bool, e: Expr)
    requires Leaf(e)
    ensures Straight(ExprCode(pointer, e))
  {
  }

  lemma SwapStaysStraight(code: Code)
    requires Straight(code) && |code| >= 2
    ensures Straight(SwapLastTwo(code))
  {
  }

  lemma CallbackStaysStraight(code: Code, name: string, n: nat)
    requires Straight(code)
    ensures Straight(AppendCallback(code, name, n))
  {
  }

  lemma {:induction false} ArgsStraight(pointer: bool, es: seq<Expr>)
    requires forall a :: a in es ==> Compiles(a)
    ensures Straight(ArgsCode(pointer, es))
    decreases es, 1
  {
    hide Compiles, ExprCode;
    if es != [] {
      ArgsStraight(pointer, es[..|es| - 1]);
      ExprStraight(pointer, es[|es| - 1]);
    }
  }

  // ----- Templates -----

  lemma {:induction false} BodyStructured(pointer: bool, b: Body, at: nat)
    requires CompilesBody(b)
    ensures Structured(BodyCode(pointer, b, at), at, at + BodySize(pointer, b))
    decreases b, 0
  {
    hide Structured, CompilesNode, NodeCode, NodeSize;
    match b
    case Nil => StraightIsStructured([], at, at);
    case Cons(head, rest) =>
      var mid := at + NodeSize(pointer, head);
      var end := at + BodySize(pointer, b);
      NodeStructured(pointer, head, at);
      Widens(NodeCode(pointer, head, at), at, mid, end);
      BodyStructured(pointer, rest, mid);
      Joins(NodeCode(pointer, head, at), BodyCode(pointer, rest, mid), at, end);
  }

  lemma {:induction false} NodeStructured(pointer: bool, n: Node, at: nat)
    requires CompilesNode(n)
    ensures Structured(NodeCode(pointer, n, at), at, at + NodeSize(pointer, n))
    decreases n, 0
  {
    hide Structured, Straight, Compiles, ExprCode, BodySize, CompilesBody, CompilesChain, ChainCode, ChainSize, LoopCode;
    match n
    case Text(text) => TextStructured(text, at);
    case Comment => StraightIsStructured([], at, at) by { NothingStraight(); }
    case Print(e) =>
      ExprStraight(pointer, e);
      AppendStaysStraight(ExprCode(pointer, e), PrintValue, 1);
      StraightIsStructured(NodeCode(pointer, n, at), at, at + NodeSize(pointer, n));
    case If(_, chain) => ChainStructured(pointer, chain, at, at + ChainSize(pointer, chain));
    case ForItem(_, item, over, body, _) => LoopStructured(pointer, Null, item, over, body, at);
    case ForEntry(_, key, item, over, body, _) => LoopStructured(pointer, String(key), item, over, body, at);
  }

  lemma NothingStraight()
    ensures Straight([])
  {
  }

  lemma TextStructured(text: string, at: nat)
    ensures Structured([Plain(PrintText, 0).(str := text)], at, at + 1)
  {
  }

  lemma {:induction false} LoopStructured(pointer: bool, key: Json, item: string, over: Expr, body: Body, at: nat)
    requires Compiles(over) && CompilesBody(body)
    ensures var code := LoopCode(pointer, key, item, over, body, at); Structured(code, at, at + |code|)
    decreases body, 1
  {
    hide Structured, Straight, Compiles, ExprCode, BodySize, BodyCode, CompilesBody;
    var ec := ExprCode(pointer, over);
    var first := at + |ec| + 1;
    var inner := BodyCode(pointer, body, first);
    var start := Bytecode(StartLoop, first + |inner|, Pop, key, item);
    ExprStraight(pointer, over);
    StraightIsStructured(ec, at, first + |inner| + 1);
    BodyStructured(pointer, body, first);
    Bracketed(inner, start, first);
    var loop := [start] + inner + [Plain(EndLoop, first)];
    Joins(ec, loop, at, first + |inner| + 1);
    assert ec + loop == ec + [start] + inner + [Plain(EndLoop, first)];
  }

  lemma Bracketed(inner: Code, start: Bytecode, first: nat)
    requires first > 0 && Structured(inner, first, first + |inner|)
    requires start.op.StartLoop? && start.args == first + |inner|
    ensures Structured([start] + inner + [Plain(EndLoop, first)], first - 1, first + |inner| + 1)
  {
    var code := [start] + inner + [Plain(EndLoop, first)];
    var at, end := first - 1, first + |inner| + 1;
    forall i | 0 <= i < |code| ensures Lands(code, at, end, i) {
      if 0 < i <= |inner| {
        assert Lands(inner, first, first + |inner|, i - 1) && code[i] == inner[i - 1];
      }
    }
  }

  lemma {:induction false} ChainStructured(pointer: bool, c: Chain, at: nat, end: nat)
    requires CompilesChain(c) && at + ChainSize(pointer, c) <= end
    ensures Structured(ChainCode(pointer, c, at, end), at, end)
    decreases c, 0
  {
    hide Structured, Straight, Compiles, ExprCode, BodySize, BodyCode, CompilesBody, TailSize, TailCode;
    var ec := ExprCode(pointer, c.cond);
    var first := at + |ec| + 1;
    var next := first + BodySize(pointer, c.yes);
    var jump := Plain(ConditionalJump, if c.tail.EndIf? then end else next + 1);
    var yes, tail := BodyCode(pointer, c.yes, first), TailCode(pointer, c.tail, next, end);
    ExprStraight(pointer, c.cond);
    StraightIsStructured(ec, at, end);
    TailNotEmpty(pointer, c.tail);
    ForwardJump(ConditionalJump, at + |ec|, jump.args, end);
    Joins(ec, [jump], at, end);
    BodyStructured(pointer, c.yes, first);
    Widens(yes, first, next, end);
    Joins(ec + [jump], yes, at, end);
    TailStructured(pointer, c.tail, next, end);
    Joins(ec + [jump] + yes, tail, at, end);
  }

  lemma TailNotEmpty(pointer: bool, t: Tail)
    ensures !t.EndIf? ==> TailSize(pointer, t) > 0
  {
  }

  lemma {:induction false} TailStructured(pointer: bool, t: Tail, at: nat, end: nat)
    requires CompilesTail(t) && at + TailSize(pointer, t) <= end
    ensures Structured(TailCode(pointer, t, at, end), at, end)
    decreases t, 0
  {
    hide Structured, BodySize, BodyCode, CompilesBody, ChainCode, ChainSize, CompilesChain;
    match t
    case EndIf(_) => StraightIsStructured([], at, end);
    case Else(_, no, _) =>
      ForwardJump(Jump, at, end, end) by { assert at < end; }
      BodyStructured(pointer, no, at + 1);
      Widens(BodyCode(pointer, no, at + 1), at + 1, at + 1 + BodySize(pointer, no), end);
      Joins([Plain(Jump, end)], BodyCode(pointer, no, at + 1), at, end);
    case ElseIf(_, next) =>
      ForwardJump(Jump, at, end, end) by { assert at < end; }
      ChainStructured(pointer, next, at + 1, end);
      Joins([Plain(Jump, end)], ChainCode(pointer, next, at + 1, end), at, end);
  }

  /** Every jump of a compiled template has its target inside the program or right behind it. */
  lemma TargetsInside(pointer: bool, b: Body)
    requires CompilesBody(b)
    ensures var code := BodyCode(pointer, b, 0);
            && Structured(code, 0, |code|)
            && forall i :: 0 <= i < |code| && Jumps(code[i].op) ==> code[i].args <= |code|
  {
    hide BodyCode, CompilesBody, BodySize;
    BodyStructured(pointer, b, 0);
    var code := BodyCode(pointer, b, 0);
    forall i | 0 <= i < |code| && Jumps(code[i].op) ensures code[i].args <= |code| { assert Lands(code, 0, |code|, i); }
  }
}
