/** Compiled code comes to an end, whether or not it does what its template means. */
module Halting {
  import opened Options
  import opened Json
  import opened Bytecodes
  import opened Templates
  import opened Compiler
  import opened Machine
  import opened Discipline
  import opened Correctness
  import Breakdowns

  /** The run from `s` stops, or gets to `pc` in the same loops. */
  ghost predicate Passes(p: Program, s: State, pc: nat) {
    exists t :: Reaches(p, s, t) && Arrives(s, t, pc)
  }

  predicate Arrives(s: State, t: State, pc: nat) {
    t.status.Running? ==> t.pc == pc && t.loops == s.loops
  }

  lemma PassesNow(p: Program, s: State)
    ensures Passes(p, s, s.pc)
  {
    hide Reaches;
    Stay(p, s);
  }

  /** Where the run is when it has passed the first part. */
  lemma Halfway(p: Program, s: State, mid: nat) returns (t: State)
    requires Passes(p, s, mid)
    ensures Reaches(p, s, t) && Arrives(s, t, mid)
  {
    hide Reaches;
    t :| Reaches(p, s, t) && Arrives(s, t, mid);
  }

  lemma FromHalfway(p: Program, s: State, t: State, pc: nat)
    requires Reaches(p, s, t)
    requires t.status.Running? ==> t.loops == s.loops && Passes(p, t, pc)
    ensures Passes(p, s, pc)
  {
    hide Reaches;
    if t.status.Running? {
      var u := Halfway(p, t, pc);
      Correctness.Chain(p, s, t, u);
    }
  }

  // ----- Expressions -----

  lemma {:induction false} StraightPasses(p: Program, s: State, code: Code)
    requires s.status.Running? && p.Holds(s.pc, code) && Straight(code)
    ensures Passes(p, s, s.pc + |code|)
    decreases |code|
  {
    hide Passes, Reaches, Step;
    if code == [] {
      PassesNow(p, s);
    } else {
      assert code == [code[0]] + code[1..];
      HoldsTwo(p, s.pc, [code[0]], code[1..]);
      HeldAt(p, s.pc, code[0]);
      OneStep(p, s);
      Breakdowns.StraightStep(p.env, p.root, code[0], s);
      var t := Step(p.env, p.root, code[0], s);
      if t.status.Running? { StraightPasses(p, t, code[1..]); }
      FromHalfway(p, s, t, s.pc + |code|);
    }
  }

  lemma HeldAt(p: Program, at: nat, bc: Bytecode)
    requires p.Holds(at, [bc])
    ensures at < |p.code| && p.code[at] == bc
  {
    assert p.code[at] == p.code[at..at + 1][0];
  }

  lemma ExprPasses(p: Program, s: State, e: Expr)
    requires s.status.Running? && Compiles(e) && p.Holds(s.pc, ExprCode(p.Pointer(), e))
    ensures Passes(p, s, s.pc + |ExprCode(p.Pointer(), e)|)
  {
    hide Compiles, ExprCode, Passes, Straight;
    ExprStraight(p.Pointer(), e);
    StraightPasses(p, s, ExprCode(p.Pointer(), e));
  }

  // ----- Templates -----

  lemma {:induction false} BodyPasses(p: Program, b: Body, s: State)
    requires s.status.Running? && CompilesBody(b) && p.Holds(s.pc, BodyCode(p.Pointer(), b, s.pc))
    ensures Passes(p, s, s.pc + BodySize(p.Pointer(), b))
    decreases b, 2
  {
    hide Passes, Reaches, CompilesNode, NodeCode, NodeSize;
    match b
    case Nil => PassesNow(p, s);
    case Cons(head, rest) =>
      var mid := s.pc + NodeSize(p.Pointer(), head);
      HoldsTwo(p, s.pc, NodeCode(p.Pointer(), head, s.pc), BodyCode(p.Pointer(), rest, mid));
      NodePasses(p, head, s);
      var t := Halfway(p, s, mid);
      if t.status.Running? { BodyPasses(p, rest, t); }
      FromHalfway(p, s, t, mid + BodySize(p.Pointer(), rest));
  }

  lemma {:induction false} NodePasses(p: Program, n: Node, s: State)
    requires s.status.Running? && CompilesNode(n) && p.Holds(s.pc, NodeCode(p.Pointer(), n, s.pc))
    ensures Passes(p, s, s.pc + NodeSize(p.Pointer(), n))
    decreases n, 3
  {
    hide Passes, Reaches, Straight, Compiles, ExprCode, BodySize, CompilesBody, CompilesChain, ChainCode, ChainSize;
    hide LoopCode;
    match n
    case Text(text) =>
      TextIsStraight(text);
      StraightPasses(p, s, [Plain(PrintText, 0).(str := text)]);
    case Comment => PassesNow(p, s);
    case Print(e) =>
      ExprStraight(p.Pointer(), e);
      AppendStaysStraight(ExprCode(p.Pointer(), e), PrintValue, 1);
      StraightPasses(p, s, AppendFunction(ExprCode(p.Pointer(), e), PrintValue, 1));
    case If(_, chain) => ChainPasses(p, chain, s, s.pc + ChainSize(p.Pointer(), chain));
    case ForItem(_, item, over, body, _) => LoopPasses(p, Null, item, over, body, s);
    case ForEntry(_, key, item, over, body, _) => LoopPasses(p, String(key), item, over, body, s);
  }

  lemma TextIsStraight(text: string)
    ensures Straight([Plain(PrintText, 0).(str := text)])
  {
  }

  lemma {:induction false} ChainPasses(p: Program, c: Chain, s: State, end: nat)
    requires s.status.Running? && CompilesChain(c) && end == s.pc + ChainSize(p.Pointer(), c)
    requires p.Holds(s.pc, ChainCode(p.Pointer(), c, s.pc, end))
    ensures Passes(p, s, end)
    decreases c, 4
  {
    hide Passes, Reaches, Compiles, ExprCode, BodySize, BodyCode, CompilesBody, TailSize, TailCode, ChainCode, Step;
    ChainLayout(p, c, s.pc, end);
    var first := s.pc + |ExprCode(p.Pointer(), c.cond)| + 1;
    var next := first + BodySize(p.Pointer(), c.yes);
    ExprPasses(p, s, c.cond);
    var t := Halfway(p, s, first - 1);
    if t.status.Running? {
      OneStep(p, t);
      ConditionStep(p.env, p.root, p.code[t.pc], t);
      var u := Step(p.env, p.root, p.code[t.pc], t);
      if u.status.Running? {
        if u.pc == first { YesPasses(p, c, u, next, end); } else { NoPasses(p, c.tail, u, next, end); }
      }
      FromHalfway(p, t, u, end);
    }
    FromHalfway(p, s, t, end);
  }

  lemma ChainLayout(p: Program, c: Chain, at: nat, end: nat)
    requires p.Holds(at, ChainCode(p.Pointer(), c, at, end))
    ensures var ec := ExprCode(p.Pointer(), c.cond);
            var first := at + |ec| + 1;
            var next := first + BodySize(p.Pointer(), c.yes);
            && p.Holds(at, ec) && first <= |p.code|
            && p.code[first - 1] == Plain(ConditionalJump, if c.tail.EndIf? then end else next + 1)
            && p.Holds(first, BodyCode(p.Pointer(), c.yes, first))
            && p.Holds(next, TailCode(p.Pointer(), c.tail, next, end))
            && ChainSize(p.Pointer(), c) == next - at + TailSize(p.Pointer(), c.tail)
            && (c.tail.EndIf? ==> TailSize(p.Pointer(), c.tail) == 0)
  {
    hide *;
    var ec := ExprCode(p.Pointer(), c.cond);
    var first := at + |ec| + 1;
    var next := first + BodySize(p.Pointer(), c.yes);
    var cj := Plain(ConditionalJump, if c.tail.EndIf? then end else next + 1);
    ChainShape(p.Pointer(), c, at, end);
    LoopParts(p, at, ec, cj, BodyCode(p.Pointer(), c.yes, first), TailCode(p.Pointer(), c.tail, next, end));
    ChainSizes(p.Pointer(), c);
  }

  lemma ChainSizes(pointer: bool, c: Chain)
    ensures ChainSize(pointer, c)
         == |ExprCode(pointer, c.cond)| + 1 + BodySize(pointer, c.yes) + TailSize(pointer, c.tail)
    ensures c.tail.EndIf? ==> TailSize(pointer, c.tail) == 0
  {
    hide ExprCode, BodySize;
  }

  lemma ConditionStep(env: Env, root: Json, cj: Bytecode, t: State)
    requires cj.op.ConditionalJump? && t.status.Running?
    ensures var u := Step(env, root, cj, t); u.status.Running? ==> u.loops == t.loops && (u.pc == t.pc + 1 || u.pc == cj.args)
  {
    hide Truthy, PrintStep, OperandStep, CallStep;
  }

  lemma {:induction false} YesPasses(p: Program, c: Chain, s: State, next: nat, end: nat)
    requires s.status.Running? && CompilesBody(c.yes)
    requires next == s.pc + BodySize(p.Pointer(), c.yes) && end == next + TailSize(p.Pointer(), c.tail)
    requires p.Holds(s.pc, BodyCode(p.Pointer(), c.yes, s.pc))
    requires p.Holds(next, TailCode(p.Pointer(), c.tail, next, end))
    ensures Passes(p, s, end)
    decreases c, 3
  {
    hide Passes, Reaches, BodyCode, BodySize, CompilesBody, ChainCode, ChainSize, Step;
    BodyPasses(p, c.yes, s);
    if !c.tail.EndIf? {
      var t := Halfway(p, s, next);
      if t.status.Running? { JumpPasses(p, c.tail, t, end); }
      FromHalfway(p, s, t, end);
    }
  }

  lemma JumpPasses(p: Program, tail: Tail, t: State, end: nat)
    requires t.status.Running? && !tail.EndIf? && p.Holds(t.pc, TailCode(p.Pointer(), tail, t.pc, end))
    ensures Passes(p, t, end)
  {
    hide Passes, Reaches, BodyCode, ChainCode, BodySize, ChainSize;
    var code := TailCode(p.Pointer(), tail, t.pc, end);
    assert code == [Plain(Jump, end)] + code[1..];
    HoldsTwo(p, t.pc, [Plain(Jump, end)], code[1..]);
    HeldAt(p, t.pc, Plain(Jump, end));
    OneStep(p, t);
    PassesNow(p, t.(pc := end));
    FromHalfway(p, t, t.(pc := end), end);
  }

  lemma {:induction false} NoPasses(p: Program, tail: Tail, s: State, next: nat, end: nat)
    requires s.status.Running? && CompilesTail(tail) && end == next + TailSize(p.Pointer(), tail)
    requires s.pc == if tail.EndIf? then end else next + 1
    requires p.Holds(next, TailCode(p.Pointer(), tail, next, end))
    ensures Passes(p, s, end)
    decreases tail, 5
  {
    hide Passes, Reaches, BodyCode, BodySize, CompilesBody, CompilesChain, ChainCode, ChainSize;
    if tail.EndIf? {
      PassesNow(p, s);
    } else {
      var code := TailCode(p.Pointer(), tail, next, end);
      assert code == [Plain(Jump, end)] + code[1..];
      HoldsTwo(p, next, [Plain(Jump, end)], code[1..]);
      if tail.Else? {
        assert code[1..] == BodyCode(p.Pointer(), tail.no, next + 1);
        BodyPasses(p, tail.no, s);
      } else {
        assert code[1..] == ChainCode(p.Pointer(), tail.chain, next + 1, end);
        ChainPasses(p, tail.chain, s, end);
      }
    }
  }

  // ----- Loops -----

  lemma {:induction false} LoopPasses(p: Program, key: Json, item: string, over: Expr, body: Body, s: State)
    requires s.status.Running? && Compiles(over) && CompilesBody(body)
    requires p.Holds(s.pc, LoopCode(p.Pointer(), key, item, over, body, s.pc))
    ensures Passes(p, s, s.pc + |LoopCode(p.Pointer(), key, item, over, body, s.pc)|)
    decreases body, 6
  {
    hide Passes, Reaches, Compiles, ExprCode, BodySize, BodyCode, CompilesBody, LoopCode, Step, Left;
    LoopLayout(p, key, item, over, body, s.pc);
    var start := s.pc + |ExprCode(p.Pointer(), over)|;
    var first, last := start + 1, start + 1 + BodySize(p.Pointer(), body);
    var bc := Bytecode(StartLoop, last, Pop, key, item);
    ExprPasses(p, s, over);
    var t := Halfway(p, s, start);
    if t.status.Running? {
      OneStep(p, t);
      StartStep(p.env, p.root, bc, t);
      var u := Step(p.env, p.root, bc, t);
      if !u.status.Running? || u.loops == t.loops {
        PassesNow(p, u);
        FromHalfway(p, t, u, last + 1);
      } else {
        RoundsPass(p, body, u, t.loops, first, last);
        var v := OutOfLoop(p, u, t.loops, last + 1);
        Correctness.Chain(p, t, u, v);
        if v.status.Running? { PassesNow(p, v); }
        FromHalfway(p, t, v, last + 1);
      }
    }
    FromHalfway(p, s, t, last + 1);
  }

  /** An empty value is skipped; otherwise one level is opened, with something left to iterate. */
  lemma StartStep(env: Env, root: Json, bc: Bytecode, t: State)
    requires bc.op.StartLoop? && t.status.Running?
    ensures var u := Step(env, root, bc, t);
            u.status.Running? ==>
              || (u.pc == bc.args + 1 && u.loops == t.loops)
              || (u.pc == t.pc + 1 && u.loops != t.loops && u.loops == t.loops + [u.loops[|t.loops|]])
  {
    hide OpenLevel, Empty, PrintStep, OperandStep, CallStep;
  }

  /** How many elements a level has left, the current one included. */
  function Left(level: Level): nat {
    var count := if level.ItemLevel? then |level.items| else |level.entries|;
    if level.index < count then count - level.index else 0
  }

  ghost predicate LeavesLoop(p: Program, s: State, outer: seq<Level>, pc: nat) {
    exists t :: Reaches(p, s, t) && (t.status.Running? ==> t.pc == pc && t.loops == outer)
  }

  lemma OutOfLoop(p: Program, s: State, outer: seq<Level>, pc: nat) returns (t: State)
    requires LeavesLoop(p, s, outer, pc)
    ensures Reaches(p, s, t) && (t.status.Running? ==> t.pc == pc && t.loops == outer)
  {
    hide Reaches;
    t :| Reaches(p, s, t) && (t.status.Running? ==> t.pc == pc && t.loops == outer);
  }

  /** All remaining rounds of a loop, from its first instruction. */
  lemma {:induction false} RoundsPass(p: Program, body: Body, s: State, outer: seq<Level>, first: nat, last: nat)
    requires s.status.Running? && s.pc == first && |s.loops| == |outer| + 1 && s.loops[..|outer|] == outer
    requires CompilesBody(body) && p.Holds(first, BodyCode(p.Pointer(), body, first))
    requires last == first + BodySize(p.Pointer(), body) && p.Holds(last, [Plain(EndLoop, first)])
    ensures LeavesLoop(p, s, outer, last + 1)
    decreases body, 4, Left(s.loops[|outer|])
  {
    hide Reaches, Passes, BodyCode, BodySize, CompilesBody, Step, Left;
    BodyPasses(p, body, s);
    var t := Halfway(p, s, last);
    if t.status.Running? {
      HeldAt(p, last, Plain(EndLoop, first));
      OneStep(p, t);
      EndStep(p.env, p.root, Plain(EndLoop, first), t);
      var u := Step(p.env, p.root, Plain(EndLoop, first), t);
      Correctness.Chain(p, s, t, u);
      if u.status.Running? && u.loops != outer {
        RoundsPass(p, body, u, outer, first, last);
        var v := OutOfLoop(p, u, outer, last + 1);
        Correctness.Chain(p, s, u, v);
      }
    }
  }

  /** The end of a loop leaves it, or goes back with less left. */
  lemma EndStep(env: Env, root: Json, bc: Bytecode, t: State)
    requires bc.op.EndLoop? && t.status.Running? && t.loops != []
    ensures var u, n := Step(env, root, bc, t), |t.loops| - 1;
            u.status.Running? ==>
              || (u.pc == t.pc + 1 && u.loops == t.loops[..n])
              || (u.pc == bc.args && |u.loops| == n + 1 && u.loops[..n] == t.loops[..n] && Left(u.loops[n]) < Left(t.loops[n]))
  {
    hide PrintStep, OperandStep, CallStep, BindItem, BindEntry;
  }

  // ----- The whole template -----

  /**
   * The run of every template that compiles comes to an end: at the end of the code, with an exception, or where C++
   * leaves the behaviour undefined.
   */
  lemma TemplateHalts(env: Env, root: Json, b: Body) returns (steps: nat)
    requires CompilesBody(b)
    ensures var code := BodyCode(env.pointerNotation, b, 0); Halted(code, Run(env, root, code, Start, steps))
  {
    hide Passes, Run, BodyCode, BodySize, CompilesBody;
    var code := BodyCode(env.pointerNotation, b, 0);
    var p := Program(env, root, code);
    assert code[0..|code|] == code;
    BodyPasses(p, b, Start);
    var t := Halfway(p, Start, |code|);
    steps :| Run(env, root, code, Start, steps) == t;
  }
}
