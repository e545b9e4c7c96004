/** Running compiled code does what the template means. */
module Correctness {
  import opened Options
  import opened Json
  import opened Bytecodes
  import opened Templates
  import opened Compiler
  import opened Machine
  import opened Swaps

  datatype Program = Program(env: Env, root: Json, code: Code) {
    function Pointer(): bool { env.pointerNotation }
    function Data(st: State): Json { Current(root, st.loops) }
    predicate Holds(at: nat, fragment: Code) {
      at + |fragment| <= |code| && code[at..at + |fragment|] == fragment
    }
  }

  ghost predicate Reaches(p: Program, s: State, t: State) {
    exists n: nat :: Run(p.env, p.root, p.code, s, n) == t
  }

  /** The run from `s` throws, with `out` printed by then. */
  ghost predicate FailsWith(p: Program, s: State, out: string) {
    exists t :: Reaches(p, s, t) && t.status.Failed? && t.out == out
  }

  lemma Stay(p: Program, s: State)
    ensures Reaches(p, s, s)
  {
    hide Step;
    assert Run(p.env, p.root, p.code, s, 0) == s;
  }

  lemma OneStep(p: Program, s: State)
    requires s.status.Running? && s.pc < |p.code|
    ensures Reaches(p, s, Step(p.env, p.root, p.code[s.pc], s))
  {
    hide Step;
    var t := Step(p.env, p.root, p.code[s.pc], s);
    assert Run(p.env, p.root, p.code, t, 0) == t;
    assert Run(p.env, p.root, p.code, s, 1) == t;
  }

  lemma Chain(p: Program, s: State, t: State, u: State)
    requires Reaches(p, s, t) && Reaches(p, t, u)
    ensures Reaches(p, s, u)
  {
    hide Step, Run;
    var m: nat :| Run(p.env, p.root, p.code, s, m) == t;
    var n: nat :| Run(p.env, p.root, p.code, t, n) == u;
    RunSplits(p.env, p.root, p.code, s, m, n);
    assert Run(p.env, p.root, p.code, s, m + n) == u;
  }

  lemma ChainFails(p: Program, s: State, t: State, out: string)
    requires Reaches(p, s, t) && FailsWith(p, t, out)
    ensures FailsWith(p, s, out)
  {
    hide Reaches;
    var u :| Reaches(p, t, u) && u.status.Failed? && u.out == out;
    Chain(p, s, t, u);
  }

  /** One more step ends the run with an exception. */
  lemma FailsNext(p: Program, s: State, t: State)
    requires Reaches(p, s, t) && t.status.Running? && t.pc < |p.code| && s.out == t.out
    requires Step(p.env, p.root, p.code[t.pc], t) == Fault(t, true)
    ensures FailsWith(p, s, s.out)
  {
    hide Reaches, Step;
    OneStep(p, t);
    Chain(p, s, t, Fault(t, true));
  }

  lemma HoldsPart(p: Program, at: nat, a: Code, b: Code, c: Code)
    requires p.Holds(at, a + b + c)
    ensures p.Holds(at, a) && p.Holds(at + |a|, b) && p.Holds(at + |a| + |b|, c)
  {
    var all := a + b + c;
    assert all[0..|a|] == a && all[|a|..|a| + |b|] == b && all[|a| + |b|..|all|] == c;
    SubSlice(p.code, at, |all|, 0, |a|);
    SubSlice(p.code, at, |all|, |a|, |a| + |b|);
    SubSlice(p.code, at, |all|, |a| + |b|, |all|);
  }

  lemma HoldsTwo(p: Program, at: nat, a: Code, b: Code)
    requires p.Holds(at, a + b)
    ensures p.Holds(at, a) && p.Holds(at + |a|, b)
  {
    assert a + b + [] == a + b;
    HoldsPart(p, at, a, b, []);
  }

  lemma SubSlice(code: Code, at: nat, n: nat, i: nat, j: nat)
    requires i <= j <= n && at + n <= |code|
    ensures code[at..at + n][i..j] == code[at + i..at + j]
  {
    var inner, outer := code[at..at + n][i..j], code[at + i..at + j];
    forall k | 0 <= k < |inner| ensures inner[k] == outer[k] {
      assert code[at..at + n][i + k] == code[at + i + k];
    }
  }

  // ----- Expressions -----

  /** What the code of `e` computes: the value of what it actually does. */
  function Worth(p: Program, data: Json, e: Expr): Option<Json> {
    match Actual(p.Pointer(), e)
    case None => None
    case Some(actual) => Eval(p.env, p.root, data, actual)
  }

  function WorthAll(p: Program, data: Json, es: seq<Expr>): (r: Option<seq<Json>>)
    ensures r.Some? ==> |r.value| == |es|
  {
    match ActualArgs(p.Pointer(), es)
    case None => None
    case Some(actual) => EvalAll(p.env, p.root, data, actual)
  }

  lemma FitsWorth(p: Program, data: Json, e: Expr)
    requires Fits(p.Pointer(), e)
    ensures Sound(p.Pointer(), e) && Worth(p, data, e) == Eval(p.env, p.root, data, e)
  {
    hide Eval, Fits, Sound;
    FitsSound(p.Pointer(), e);
  }

  lemma LeafWorth(p: Program, data: Json, e: Expr)
    requires Leaf(e)
    ensures Worth(p, data, e) == Eval(p.env, p.root, data, e)
  {
    hide Eval;
  }

  /** Instructions that take arguments and throw when taking them throws. */
  predicate TakesArguments(op: Op) {
    op.PrintValue? || op.Callback? || (Arity(op) > 0 && !op.Default?)
  }

  lemma TakeThrows(p: Program, s: State, t: State)
    requires Reaches(p, s, t) && t.status.Running? && t.pc < |p.code| && s.out == t.out
    requires TakesArguments(p.code[t.pc].op)
    requires Take(p.env, p.Data(t), p.code[t.pc], t.stack) == NoOperands(true)
    ensures FailsWith(p, s, s.out)
  {
    hide Reaches, FailsWith, Take, Step, Apply;
    var bc := p.code[t.pc];
    if bc.op.PrintValue? {
      assert Step(p.env, p.root, bc, t) == Fault(t, true) by { PrintThrows(p, bc, t); }
    } else {
      StepIsCall(p, bc, t);
    }
    FailsNext(p, s, t);
  }

  lemma PrintThrows(p: Program, bc: Bytecode, t: State)
    requires bc.op.PrintValue? && Take(p.env, p.Data(t), bc, t.stack) == NoOperands(true)
    ensures Step(p.env, p.root, bc, t) == Fault(t, true)
  {
    hide Take, OperandStep, ControlStep, CallStep;
  }

  /** `bc` is how the call instruction looks after `args`: fused with the last push, or on its own. */
  predicate CallInstruction(pointer: bool, args: seq<Expr>, fragment: Code, bc: Bytecode)
    requires args != []
  {
    var last := args[|args| - 1];
    var code := ArgsCode(pointer, args);
    && TakesArguments(bc.op) && bc.args == |args|
    && (|| (bc.flag.Pop? && fragment == code + [bc])
        || (Leaf(last) && fragment == code[|code| - 1 := bc]
            && bc.flag == code[|code| - 1].flag && bc.value == code[|code| - 1].value
            && (bc.flag.Immediate? || bc.str == code[|code| - 1].str)))
  }

  lemma FusedTake(p: Program, data: Json, last: Expr, bc: Bytecode, below: seq<Json>, vs: seq<Json>)
    requires Leaf(last) && bc.args == |vs| + 1
    requires var push := ExprCode(p.Pointer(), last)[0];
             bc.flag == push.flag && bc.value == push.value && (bc.flag.Immediate? || bc.str == push.str)
    ensures Take(p.env, data, bc, below + vs) ==
            match Eval(p.env, p.root, data, last)
            case Some(v) => Operands(vs + [v], below)
            case None => NoOperands(true)
  {
    assert (below + vs)[..|below|] == below && (below + vs)[|below|..] == vs;
  }

  lemma PlainTake(p: Program, data: Json, bc: Bytecode, below: seq<Json>, vs: seq<Json>)
    requires bc.flag.Pop? && bc.args == |vs|
    ensures Take(p.env, data, bc, below + vs) == Operands(vs, below)
  {
    assert (below + vs)[..|below|] == below && (below + vs)[|below|..] == vs;
  }

  lemma LeafStep(p: Program, e: Expr, st: State)
    requires st.status.Running? && p.Holds(st.pc, ExprCode(p.Pointer(), e)) && Leaf(e)
    ensures match Eval(p.env, p.root, p.Data(st), e)
            case Some(v) => Reaches(p, st, st.(pc := st.pc + 1, stack := st.stack + [v]))
            case None => FailsWith(p, st, st.out)
  {
    hide Reaches;
    assert p.code[st.pc] == ExprCode(p.Pointer(), e)[0];
    OneStep(p, st);
    if Eval(p.env, p.root, p.Data(st), e).None? {
      Stay(p, st);
      FailsNext(p, st, st);
    }
  }

  /** The code of an expression pushes the value of what it actually does, or throws when that has none. */
  lemma {:induction false} ExprRuns(p: Program, e: Expr, st: State)
    requires st.status.Running? && p.Holds(st.pc, ExprCode(p.Pointer(), e)) && Sound(p.Pointer(), e)
    ensures match Worth(p, p.Data(st), e)
            case Some(v) =>
              Reaches(p, st, st.(pc := st.pc + |ExprCode(p.Pointer(), e)|, stack := st.stack + [v]))
            case None => FailsWith(p, st, st.out)
    decreases e, 0
  {
    hide Reaches, FailsWith, Step, Worth, ExprCode, Actual, NoLiteralBeforeNullary;
    if Leaf(e) {
      LeafStep(p, e, st);
      LeafWorth(p, p.Data(st), e);
    } else if e.Operation? && e.op.Default? {
      assert e == Operation(Default, [e.args[0], e.args[1]]);
      if |ExprCode(p.Pointer(), e.args[1])| == 1 {
        DefaultRuns(p, e, e.args[0], e.args[1], st);
      } else {
        RotatedRuns(p, e, e.args[0], e.args[1], st);
      }
    } else {
      CompiledIsCall(e);
      CallRuns(p, e, st);
    }
  }

  lemma {:induction false} DefaultRuns(p: Program, e: Expr, a: Expr, b: Expr, st: State)
    requires st.status.Running? && p.Holds(st.pc, ExprCode(p.Pointer(), e)) && Sound(p.Pointer(), e)
    requires e == Operation(Default, [a, b]) && |ExprCode(p.Pointer(), b)| == 1
    ensures match Worth(p, p.Data(st), e)
            case Some(v) =>
              Reaches(p, st, st.(pc := st.pc + |ExprCode(p.Pointer(), e)|, stack := st.stack + [v]))
            case None => FailsWith(p, st, st.out)
    decreases b, 5
  {
    hide Reaches, FailsWith, Step, Worth, ExprCode, ArgsCode, Actual, ActualArgs, Compiles, Counted, Eval;
    hide AppendFunction;
    var cb, bc := ExprCode(p.Pointer(), b), ExprCode(p.Pointer(), a)[0].(op := Default, args := 2);
    DefaultShape(p, e, a, b, p.Data(st));
    HoldsTwo(p, st.pc, cb, [bc]);
    ExprRuns(p, b, st);
    var fallback := Worth(p, p.Data(st), b);
    if fallback.Some? {
      DefaultFinish(p, a, bc, st, st.(pc := st.pc + |cb|, stack := st.stack + [fallback.value]), fallback.value);
    }
  }

  lemma DefaultShape(p: Program, e: Expr, a: Expr, b: Expr, data: Json)
    requires e == Operation(Default, [a, b]) && Sound(p.Pointer(), e) && |ExprCode(p.Pointer(), b)| == 1
    ensures Leaf(a) && Sound(p.Pointer(), b)
    ensures ExprCode(p.Pointer(), e)
         == ExprCode(p.Pointer(), b) + [ExprCode(p.Pointer(), a)[0].(op := Default, args := 2)]
    ensures Worth(p, data, e) == OrElse(Worth(p, data, b), Eval(p.env, p.root, data, a))
  {
    hide Actual, ExprCode, Eval, NoLiteralBeforeNullary;
    assert e.args[0] == a && e.args[1] == b && b in e.args;
    DefaultActual(p.Pointer(), a, b);
    DefaultSwapExact(p.Pointer(), a, b);
    LeafActual(p.Pointer(), a);
    DefaultEval(p, a, Actual(p.Pointer(), b).value, data);
  }

  /** The first argument's value when it has one, else the fallback, which must have one in any case. */
  function OrElse(fallback: Option<Json>, first: Option<Json>): Option<Json> {
    if fallback.Some? && first.Some? then first else fallback
  }

  lemma DefaultEval(p: Program, a: Expr, b: Expr, data: Json)
    ensures Eval(p.env, p.root, data, Operation(Default, [a, b]))
         == OrElse(Eval(p.env, p.root, data, b), Eval(p.env, p.root, data, a))
  {
    assert [a, b][0] == a && [a, b][1] == b;
  }

  /** Behind a longer fallback: an argument of the fallback call ends up as the operand of `default`. */
  lemma {:induction false} RotatedRuns(p: Program, e: Expr, a: Expr, b: Expr, st: State)
    requires st.status.Running? && p.Holds(st.pc, ExprCode(p.Pointer(), e)) && Sound(p.Pointer(), e)
    requires e == Operation(Default, [a, b]) && |ExprCode(p.Pointer(), b)| != 1
    ensures match Worth(p, p.Data(st), e)
            case Some(v) =>
              Reaches(p, st, st.(pc := st.pc + |ExprCode(p.Pointer(), e)|, stack := st.stack + [v]))
            case None => FailsWith(p, st, st.out)
    decreases e.args, 5
  {
    hide Reaches, FailsWith, Step, Worth, ExprCode, ArgsCode, Actual, ActualArgs, Compiles, Counted, Eval;
    hide AppendFunction, ShiftedWorth, RotatedFront, Rotatable, IsCall;
    assert e.args[0] == a && e.args[1] == b;
    RotatedParts(p, e, a, b, p.Data(st));
    var y, front, fallback := Moved(b), RotatedFront(p.Pointer(), a, b), ShiftedWorth(p, p.Data(st), a, b);
    var bc := ExprCode(p.Pointer(), y)[0].(op := Default, args := 2);
    HoldsTwo(p, st.pc, front, [bc]);
    if b.Operation? && b.op.Default? {
      ShiftedDefaultRuns(p, a, b, st);
    } else {
      ShiftedCallRuns(p, a, b, st);
    }
    if fallback.Some? {
      DefaultFinish(p, y, bc, st, st.(pc := st.pc + |front|, stack := st.stack + [fallback.value]), fallback.value);
    }
  }

  /** The code before the `default`. */
  function RotatedFront(pointer: bool, a: Expr, b: Expr): Code
    requires Rotatable(b)
  {
    var ca := ExprCode(pointer, a);
    if b.Operation? && b.op.Default? then ca + [ExprCode(pointer, b.args[0])[0].(op := Default, args := 2)]
    else
      var cb := ExprCode(pointer, b);
      ca + ArgsCode(pointer, b.args[..Penultimate(b)]) + [cb[|cb| - 1]]
  }

  function ShiftedWorth(p: Program, data: Json, a: Expr, b: Expr): Option<Json> {
    match (Actual(p.Pointer(), a), Actual(p.Pointer(), b))
    case (Some(a'), Some(b')) => if Rotatable(b') then Eval(p.env, p.root, data, Shifted(a', b')) else None
    case _ => None
  }

  lemma RotatedParts(p: Program, e: Expr, a: Expr, b: Expr, data: Json)
    requires e == Operation(Default, [a, b]) && Sound(p.Pointer(), e) && |ExprCode(p.Pointer(), b)| != 1
    ensures Sound(p.Pointer(), a) && Sound(p.Pointer(), b) && Rotatable(b)
    ensures if b.Operation? && b.op.Default? then Leaf(b.args[0]) else IsCall(b)
    ensures ExprCode(p.Pointer(), e)
         == RotatedFront(p.Pointer(), a, b) + [ExprCode(p.Pointer(), Moved(b))[0].(op := Default, args := 2)]
    ensures Worth(p, data, e) == OrElse(ShiftedWorth(p, data, a, b), Eval(p.env, p.root, data, Moved(b)))
  {
    hide Actual, ActualArgs, ExprCode, ArgsCode, Eval, Rotatable, Compiles, Counted, Moved, Shifted, RotatedFront;
    hide IsCall;
    SoundParts(p.Pointer(), a, b);
    DefaultActual(p.Pointer(), a, b);
    var b' := Actual(p.Pointer(), b).value;
    DefaultEval(p, Moved(b'), Shifted(Actual(p.Pointer(), a).value, b'), data);
    RotatableBoth(p.Pointer(), b);
    if b.Operation? && b.op.Default? {
      FrontOfDefault(p.Pointer(), a, b);
    } else {
      FrontOfCall(p.Pointer(), a, b);
    }
  }

  lemma RotatableBoth(pointer: bool, b: Expr)
    requires Sound(pointer, b) && Rotatable(Actual(pointer, b).value)
    ensures Rotatable(b) && Moved(Actual(pointer, b).value) == Moved(b)
    ensures if b.Operation? && b.op.Default? then Leaf(b.args[0]) && Leaf(b.args[1]) && |b.args| == 2 else IsCall(b)
  {
    hide Actual, ActualArgs, Compiles, Counted, Rotatable, IsCall, Moved;
    LeavesStay(pointer, b);
    LeafIsNotRotatable(b);
    if b.Operation? && b.op.Default? {
      RotatableDefault(pointer, b);
    } else {
      CompiledIsCall(b);
      CallActual(pointer, b);
      SameLeaves(pointer, b);
    }
  }

  lemma LeafIsNotRotatable(b: Expr)
    ensures Rotatable(b) ==> !Leaf(b)
  {
  }

  lemma FrontOfDefault(pointer: bool, a: Expr, b: Expr)
    requires b.Operation? && b.op.Default? && |b.args| == 2 && Leaf(b.args[0]) && Leaf(b.args[1]) && Rotatable(b)
    ensures ExprCode(pointer, Operation(Default, [a, b]))
         == RotatedFront(pointer, a, b) + [ExprCode(pointer, Moved(b))[0].(op := Default, args := 2)]
  {
    hide ExprCode;
    assert b == Operation(Default, [b.args[0], b.args[1]]);
    RotatedDefaultCode(pointer, a, b.args[0], b.args[1]);
  }

  lemma FrontOfCall(pointer: bool, a: Expr, b: Expr)
    requires IsCall(b) && Rotatable(b)
    ensures ExprCode(pointer, Operation(Default, [a, b]))
         == RotatedFront(pointer, a, b) + [ExprCode(pointer, Moved(b))[0].(op := Default, args := 2)]
  {
    hide ExprCode, ArgsCode;
    RotatedCode(pointer, a, b);
  }

  lemma SoundParts(pointer: bool, a: Expr, b: Expr)
    requires Sound(pointer, Operation(Default, [a, b]))
    ensures Sound(pointer, a) && Sound(pointer, b)
  {
    hide Actual, ExprCode, NoLiteralBeforeNullary;
    var e := Operation(Default, [a, b]);
    assert a in e.args && b in e.args;
    DefaultActual(pointer, a, b);
  }

  lemma {:induction false} ShiftedDefaultRuns(p: Program, a: Expr, b: Expr, st: State)
    requires st.status.Running? && Sound(p.Pointer(), a) && Sound(p.Pointer(), b) && Rotatable(b)
    requires b.Operation? && b.op.Default? && Leaf(b.args[0])
    requires p.Holds(st.pc, RotatedFront(p.Pointer(), a, b))
    ensures match ShiftedWorth(p, p.Data(st), a, b)
            case Some(v) => Reaches(p, st, st.(pc := st.pc + |RotatedFront(p.Pointer(), a, b)|, stack := st.stack + [v]))
            case None => FailsWith(p, st, st.out)
    decreases a, 5
  {
    hide Reaches, FailsWith, Step, Worth, ExprCode, ArgsCode, Actual, ActualArgs, Compiles, Counted, Eval;
    hide AppendFunction, ShiftedWorth, RotatedFront, Rotatable;
    ShiftedDefault(p, p.Data(st), a, b);
    var c := b.args[0];
    var ca, bc := ExprCode(p.Pointer(), a), ExprCode(p.Pointer(), c)[0].(op := Default, args := 2);
    HoldsTwo(p, st.pc, ca, [bc]);
    ExprRuns(p, a, st);
    var v := Worth(p, p.Data(st), a);
    if v.Some? {
      DefaultFinish(p, c, bc, st, st.(pc := st.pc + |ca|, stack := st.stack + [v.value]), v.value);
    }
  }

  lemma ShiftedDefault(p: Program, data: Json, a: Expr, b: Expr)
    requires Sound(p.Pointer(), a) && Sound(p.Pointer(), b) && Rotatable(b)
    requires b.Operation? && b.op.Default? && Leaf(b.args[0])
    ensures |b.args| == 2
    ensures RotatedFront(p.Pointer(), a, b)
         == ExprCode(p.Pointer(), a) + [ExprCode(p.Pointer(), b.args[0])[0].(op := Default, args := 2)]
    ensures ShiftedWorth(p, data, a, b) == OrElse(Worth(p, data, a), Eval(p.env, p.root, data, b.args[0]))
  {
    hide Actual, Eval, ExprCode, Compiles, Counted;
    TwoLeavesStay(p.Pointer(), b);
    DefaultEval(p, b.args[0], Actual(p.Pointer(), a).value, data);
  }

  lemma TwoLeavesStay(pointer: bool, b: Expr)
    requires b.Operation? && b.op.Default? && Rotatable(b) && Leaf(b.args[0]) && Actual(pointer, b).Some?
    ensures Actual(pointer, b) == Some(b)
  {
    hide Actual, ExprCode;
    assert b == Operation(Default, [b.args[0], b.args[1]]);
    DefaultActual(pointer, b.args[0], b.args[1]);
    LeafActual(pointer, b.args[0]);
    LeafActual(pointer, b.args[1]);
    FirstLeaf(pointer, b.args[1]);
  }

  /** `a` stands on the stack below the arguments of `b` before the moved one. */
  lemma {:induction false} ShiftedCallRuns(p: Program, a: Expr, b: Expr, st: State)
    requires st.status.Running? && Sound(p.Pointer(), a) && Sound(p.Pointer(), b) && Rotatable(b) && IsCall(b)
    requires p.Holds(st.pc, RotatedFront(p.Pointer(), a, b))
    ensures match ShiftedWorth(p, p.Data(st), a, b)
            case Some(v) => Reaches(p, st, st.(pc := st.pc + |RotatedFront(p.Pointer(), a, b)|, stack := st.stack + [v]))
            case None => FailsWith(p, st, st.out)
    decreases [a, b], 4
  {
    hide Reaches, FailsWith, Step, Worth, ExprCode, ArgsCode, Actual, ActualArgs, Compiles, Counted, Eval;
    hide AppendFunction, ShiftedWorth, Rotatable, IsCall, ReadyOrFails, EvalAll, WorthAll, ShiftedCall, ShiftedArgs;
    var cb := ExprCode(p.Pointer(), b);
    var bc, fragment := cb[|cb| - 1], RotatedFront(p.Pointer(), a, b);
    ShiftedMeaning(p, p.Data(st), a, b);
    ShiftedInstruction(p.Pointer(), b);
    var s := ShiftedReady(p, a, b, bc, st);
    ReadyCallRuns(p, ShiftedArgs(a, b), fragment, bc, ShiftedCall(p.Pointer(), a, b), st, s);
  }

  function ShiftedArgs(a: Expr, b: Expr): seq<Expr>
    requires IsCall(b) && Rotatable(b)
  {
    [a] + b.args[..Penultimate(b)] + b.args[Penultimate(b) + 1..]
  }

  function ShiftedCall(pointer: bool, a: Expr, b: Expr): Expr
    requires IsCall(b) && Rotatable(b)
  {
    match ActualArgs(pointer, ShiftedArgs(a, b))
    case Some(args) => b.(args := args)
    case None => b
  }

  lemma ShiftedMeaning(p: Program, data: Json, a: Expr, b: Expr)
    requires Sound(p.Pointer(), a) && Sound(p.Pointer(), b) && Rotatable(b) && IsCall(b)
    ensures var actual := ShiftedCall(p.Pointer(), a, b);
            && IsCall(actual) && |actual.args| == |b.args|
            && (if b.Invoke? then actual.Invoke? && actual.name == b.name else actual.Operation? && actual.op == b.op)
            && ShiftedWorth(p, data, a, b) == Eval(p.env, p.root, data, actual)
            && WorthAll(p, data, ShiftedArgs(a, b)) == EvalAll(p.env, p.root, data, actual.args)
  {
    hide Actual, ActualArgs, Eval, EvalAll, Compiles, Counted, Rotatable, Penultimate;
    CallActual(p.Pointer(), b);
    SameLeaves(p.Pointer(), b);
    ShiftedActual(p.Pointer(), a, b);
    PenultimateIn(b);
  }

  lemma PenultimateIn(b: Expr)
    requires IsCall(b) && Rotatable(b)
    ensures 0 <= Penultimate(b) < |b.args| && |ShiftedArgs(b, b)| == |b.args|
  {
  }

  lemma ShiftedActual(pointer: bool, a: Expr, b: Expr)
    requires IsCall(b) && Rotatable(b) && Actual(pointer, a).Some? && ActualArgs(pointer, b.args).Some?
    ensures var k, args := Penultimate(b), ActualArgs(pointer, b.args).value;
            ActualArgs(pointer, ShiftedArgs(a, b)) == Some([Actual(pointer, a).value] + args[..k] + args[k + 1..])
  {
    hide Actual, ActualArgs;
    ActualArgsEach(pointer, b.args);
    ActualArgsEach(pointer, ShiftedArgs(a, b));
    var k, args, shifted := Penultimate(b), ActualArgs(pointer, b.args).value, ShiftedArgs(a, b);
    var expected := [Actual(pointer, a).value] + args[..k] + args[k + 1..];
    forall i | 0 <= i < |shifted| ensures Actual(pointer, shifted[i]) == Some(expected[i]) {
      if 0 < i <= k { assert shifted[i] == b.args[i - 1]; }
      if i > k { assert shifted[i] == b.args[i]; }
    }
    assert ActualArgs(pointer, shifted).value == expected;
  }

  lemma ShiftedInstruction(pointer: bool, b: Expr)
    requires IsCall(b) && Rotatable(b) && Counted(b)
    ensures var cb := ExprCode(pointer, b);
            var bc := cb[|cb| - 1];
            && TakesArguments(bc.op) && bc.args == |b.args|
            && (if b.Invoke? then bc.op.Callback? && bc.str == b.name else bc.op == b.op)
            && (Penultimate(b) == |b.args| - 1 ==> bc.flag.Pop?)
            && (Penultimate(b) == |b.args| - 2 ==>
                  var push := ExprCode(pointer, b.args[|b.args| - 1])[0];
                  bc.flag == push.flag && bc.value == push.value && (bc.flag.Immediate? || bc.str == push.str))
  {
    hide ExprCode, ArgsCode, CallInstruction;
    PenultimateInside(b);
    if b.Invoke? { CallbackCode(pointer, b); } else { BuiltinCode(pointer, b); }
    InstructionTakes(pointer, b);
    if Penultimate(b) == |b.args| - 1 { UnfusedPops(pointer, b); } else { FusedKeeps(pointer, b); }
  }

  lemma InstructionTakes(pointer: bool, b: Expr)
    requires !Leaf(b) && b.args != []
    requires var code := ExprCode(pointer, b); CallInstruction(pointer, b.args, code, code[|code| - 1])
    ensures var code := ExprCode(pointer, b); TakesArguments(code[|code| - 1].op) && code[|code| - 1].args == |b.args|
  {
    hide ExprCode, ArgsCode;
  }

  lemma UnfusedPops(pointer: bool, b: Expr)
    requires b.Invoke? && b.args != [] && b.args[|b.args| - 1].Lookup?
    ensures var code := ExprCode(pointer, b); code[|code| - 1].flag.Pop?
  {
    hide ExprCode, ArgsCode;
    CallCode(pointer, b);
  }

  lemma FusedKeeps(pointer: bool, b: Expr)
    requires IsCall(b) && |b.args| >= 2
    requires if b.Invoke? then b.args[|b.args| - 1].Literal? else Leaf(b.args[|b.args| - 1])
    requires var code := ExprCode(pointer, b); CallInstruction(pointer, b.args, code, code[|code| - 1])
    ensures var code, push := ExprCode(pointer, b), ExprCode(pointer, b.args[|b.args| - 1])[0];
            var bc := code[|code| - 1];
            bc.flag == push.flag && bc.value == push.value && (bc.flag.Immediate? || bc.str == push.str)
  {
    hide ExprCode, ArgsCode;
    CallCode(pointer, b);
    ArgsCodeIs(pointer, b.args);
    LeafCode(pointer, b.args[|b.args| - 1]);
  }

  lemma {:induction false} ShiftedReady(p: Program, a: Expr, b: Expr, bc: Bytecode, st: State) returns (s: State)
    requires st.status.Running? && Sound(p.Pointer(), a) && Sound(p.Pointer(), b) && Rotatable(b) && IsCall(b)
    requires p.Holds(st.pc, RotatedFront(p.Pointer(), a, b))
    requires var cb := ExprCode(p.Pointer(), b); bc == cb[|cb| - 1]
    ensures ReadyOrFails(p, ShiftedArgs(a, b), |RotatedFront(p.Pointer(), a, b)|, bc, st, s)
    decreases [a, b], 3
  {
    hide Reaches, FailsWith, Worth, WorthAll, ExprCode, ArgsCode, Sound, ShiftedArgs, RotatedFront, ReadyOrFails;
    hide IsCall;
    hide Rotatable, Current, Penultimate;
    CallFront(p.Pointer(), a, b);
    SoundArgs(p.Pointer(), b);
    var k := Penultimate(b);
    HoldsTwo(p, st.pc, ExprCode(p.Pointer(), a) + ArgsCode(p.Pointer(), b.args[..k]), [bc]);
    FirstRuns(p, a, b, k, st);
    var end := st.pc + |RotatedFront(p.Pointer(), a, b)| - 1;
    var vs := WorthAll(p, p.Data(st), [a] + b.args[..k]);
    s := if vs.Some? then st.(pc := end, stack := st.stack + vs.value) else st.(pc := end);
    ShiftedLast(p, a, b, bc, st, s);
  }

  /** `a`, and then the first `k` arguments of `b`. */
  lemma {:induction false} FirstRuns(p: Program, a: Expr, b: Expr, k: nat, st: State)
    requires st.status.Running? && Sound(p.Pointer(), a) && !Leaf(b) && k < |b.args|
    requires forall x :: x in b.args ==> Sound(p.Pointer(), x)
    requires p.Holds(st.pc, ExprCode(p.Pointer(), a) + ArgsCode(p.Pointer(), b.args[..k]))
    ensures var end := st.pc + |ExprCode(p.Pointer(), a) + ArgsCode(p.Pointer(), b.args[..k])|;
            match WorthAll(p, p.Data(st), [a] + b.args[..k])
            case Some(vs) => Reaches(p, st, st.(pc := end, stack := st.stack + vs))
            case None => FailsWith(p, st, st.out)
    decreases [a, b], 2
  {
    hide Reaches, FailsWith, Worth, WorthAll, ExprCode, ArgsCode, Sound;
    assert [a, b][0] == a && [a, b][1] == b;
    var es := b.args[..k];
    var ca, ces := ExprCode(p.Pointer(), a), ArgsCode(p.Pointer(), es);
    HoldsTwo(p, st.pc, ca, ces);
    ExprRuns(p, a, st);
    var mid := st.pc + |ca|;
    var v := Worth(p, p.Data(st), a);
    if v.Some? { ArgsRun(p, es, st.(pc := mid, stack := st.stack + [v.value])); }
    FirstJoins(p, a, es, st, mid, mid + |ces|);
  }

  lemma FirstJoins(p: Program, a: Expr, es: seq<Expr>, st: State, mid: nat, end: nat)
    requires match Worth(p, p.Data(st), a)
             case None => FailsWith(p, st, st.out)
             case Some(v) =>
               var t := st.(pc := mid, stack := st.stack + [v]);
               && Reaches(p, st, t)
               && match WorthAll(p, p.Data(st), es)
                  case Some(vs) => Reaches(p, t, t.(pc := end, stack := t.stack + vs))
                  case None => FailsWith(p, t, t.out)
    ensures match WorthAll(p, p.Data(st), [a] + es)
            case Some(vs) => Reaches(p, st, st.(pc := end, stack := st.stack + vs))
            case None => FailsWith(p, st, st.out)
  {
    hide Reaches, FailsWith, Worth, WorthAll;
    WorthFront(p, p.Data(st), a, es);
    var v, vs := Worth(p, p.Data(st), a), WorthAll(p, p.Data(st), es);
    if v.Some? {
      var t := st.(pc := mid, stack := st.stack + [v.value]);
      if vs.Some? {
        Chain(p, st, t, t.(pc := end, stack := t.stack + vs.value));
        assert t.stack + vs.value == st.stack + ([v.value] + vs.value);
      } else {
        ChainFails(p, st, t, st.out);
      }
    }
  }

  lemma CallFront(pointer: bool, a: Expr, b: Expr)
    requires IsCall(b) && Rotatable(b)
    ensures var cb := ExprCode(pointer, b);
            !Leaf(b) && 0 <= Penultimate(b) < |b.args| &&
            RotatedFront(pointer, a, b)
            == ExprCode(pointer, a) + ArgsCode(pointer, b.args[..Penultimate(b)]) + [cb[|cb| - 1]]
  {
    hide ExprCode, ArgsCode;
  }

  lemma SoundArgs(pointer: bool, b: Expr)
    requires IsCall(b) && Sound(pointer, b)
    ensures forall a :: a in b.args ==> Sound(pointer, a)
  {
    hide Actual, ActualArgs, NoLiteralBeforeNullary;
    CallActual(pointer, b);
    ActualArgsEach(pointer, b.args);
  }

  lemma {:induction false} WorthFront(p: Program, data: Json, a: Expr, es: seq<Expr>)
    ensures WorthAll(p, data, [a] + es) ==
            match (Worth(p, data, a), WorthAll(p, data, es))
            case (Some(v), Some(vs)) => Some([v] + vs)
            case _ => None
    decreases |es|
  {
    hide Worth, WorthAll, ExprCode, ArgsCode;
    ArgsShape(p, es, data);
    ArgsShape(p, [a] + es, data);
    if es == [] {
      NoArgsWorth(p, data, a);
    } else {
      var front, last := es[..|es| - 1], es[|es| - 1];
      assert ([a] + es)[..|es|] == [a] + front;
      WorthFront(p, data, a, front);
      if Worth(p, data, a).Some? && WorthAll(p, data, front).Some? && Worth(p, data, last).Some? {
        Reassociate(Worth(p, data, a).value, WorthAll(p, data, front).value, Worth(p, data, last).value);
      }
    }
  }

  lemma NoArgsWorth(p: Program, data: Json, a: Expr)
    ensures WorthAll(p, data, [a] + []) == match Worth(p, data, a) case None => None case Some(v) => Some([v] + [])
  {
    hide Worth, WorthAll, ExprCode, ArgsCode;
    assert [a] + [] == [a];
    SingleArg(p, a, data);
    var v := Worth(p, data, a);
    if v.Some? { assert [v.value] + [] == [v.value]; }
  }

  lemma Reassociate(v: Json, vs: seq<Json>, w: Json)
    ensures [v] + vs + [w] == [v] + (vs + [w])
  {
  }

  /** The call's own instruction, with what comes before it on the stack. */
  lemma ShiftedLast(p: Program, a: Expr, b: Expr, bc: Bytecode, st: State, s: State)
    requires st.status.Running? && Sound(p.Pointer(), b) && Rotatable(b) && IsCall(b)
    requires var cb := ExprCode(p.Pointer(), b); bc == cb[|cb| - 1]
    requires p.Holds(st.pc, RotatedFront(p.Pointer(), a, b)) && s.pc == st.pc + |RotatedFront(p.Pointer(), a, b)| - 1
    requires match WorthAll(p, p.Data(st), [a] + b.args[..Penultimate(b)])
             case Some(vs) => s == st.(pc := s.pc, stack := st.stack + vs) && Reaches(p, st, s)
             case None => FailsWith(p, st, st.out)
    ensures ReadyOrFails(p, ShiftedArgs(a, b), |RotatedFront(p.Pointer(), a, b)|, bc, st, s)
  {
    hide Reaches, FailsWith, Take, WorthAll, ExprCode, ArgsCode, Actual, Compiles, Counted, Current;
    hide TakesArguments, RotatedFront, ReadyOrFails, IsCall;
    ShiftedInstruction(p.Pointer(), b);
    CallFront(p.Pointer(), a, b);
    var k, m := Penultimate(b), |b.args|;
    var front := ExprCode(p.Pointer(), a) + ArgsCode(p.Pointer(), b.args[..k]);
    HoldsTwo(p, st.pc, front, [bc]);
    if k == m - 2 {
      assert ShiftedArgs(a, b) == [a] + b.args[..k] + [b.args[m - 1]];
      FusedLast(p, [a] + b.args[..k], b.args[m - 1], bc, st, s);
    } else {
      assert ShiftedArgs(a, b) == [a] + b.args[..k];
      PlainLast(p, [a] + b.args[..k], bc, st, s);
    }
  }

  lemma FusedLast(p: Program, before: seq<Expr>, last: Expr, bc: Bytecode, st: State, s: State)
    requires st.status.Running? && Leaf(last) && TakesArguments(bc.op) && bc.args == |before| + 1
    requires var push := ExprCode(p.Pointer(), last)[0];
             bc.flag == push.flag && bc.value == push.value && (bc.flag.Immediate? || bc.str == push.str)
    requires p.Holds(s.pc, [bc]) && s.pc >= st.pc
    requires match WorthAll(p, p.Data(st), before)
             case Some(vs) => s == st.(pc := s.pc, stack := st.stack + vs) && Reaches(p, st, s)
             case None => FailsWith(p, st, st.out)
    ensures ReadyOrFails(p, before + [last], s.pc - st.pc + 1, bc, st, s)
  {
    hide Reaches, FailsWith, Take, WorthAll, ExprCode, TakesArguments, ReadyOrFails;
    var vs := WorthAll(p, p.Data(st), before);
    if vs.Some? {
      FusedFinish(p, before, last, bc, st, s, vs.value);
    } else {
      ArgsFail(p, before, last, s.pc - st.pc + 1, bc, st, s);
    }
  }

  lemma PlainLast(p: Program, before: seq<Expr>, bc: Bytecode, st: State, s: State)
    requires st.status.Running? && bc.flag.Pop? && bc.args == |before|
    requires p.Holds(s.pc, [bc]) && s.pc >= st.pc
    requires match WorthAll(p, p.Data(st), before)
             case Some(vs) => s == st.(pc := s.pc, stack := st.stack + vs) && Reaches(p, st, s)
             case None => FailsWith(p, st, st.out)
    ensures ReadyOrFails(p, before, s.pc - st.pc + 1, bc, st, s)
  {
    hide Reaches, FailsWith, Take, WorthAll;
    var vs := WorthAll(p, p.Data(st), before);
    if vs.Some? {
      PlainTake(p, p.Data(st), bc, st.stack, vs.value);
      assert p.code[s.pc] == p.code[s.pc..s.pc + 1][0];
    }
  }

  lemma DefaultFinish(p: Program, a: Expr, bc: Bytecode, st: State, s: State, fallback: Json)
    requires Leaf(a) && bc == ExprCode(p.Pointer(), a)[0].(op := Default, args := 2)
    requires st.status.Running? && Reaches(p, st, s) && s == st.(pc := s.pc, stack := st.stack + [fallback])
    requires p.Holds(s.pc, [bc])
    ensures var v := Eval(p.env, p.root, p.Data(st), a);
            Reaches(p, st, st.(pc := s.pc + 1, stack := st.stack + [if v.Some? then v.value else fallback]))
  {
    hide Reaches, Step, ExprCode, Eval;
    assert p.code[s.pc] == p.code[s.pc..s.pc + 1][0] == bc;
    OneStep(p, s);
    DefaultStep(p, a, bc, s);
    Chain(p, st, s, Step(p.env, p.root, bc, s));
    var v := Eval(p.env, p.root, p.Data(st), a);
    if v.Some? { assert s.stack[|s.stack| - 1 := v.value] == st.stack + [v.value]; }
  }

  lemma DefaultStep(p: Program, a: Expr, bc: Bytecode, s: State)
    requires Leaf(a) && bc == ExprCode(p.Pointer(), a)[0].(op := Default, args := 2) && s.stack != []
    ensures Step(p.env, p.root, bc, s) ==
            match Eval(p.env, p.root, p.Data(s), a)
            case Some(v) => s.(pc := s.pc + 1, stack := s.stack[|s.stack| - 1 := v])
            case None => s.(pc := s.pc + 1)
  {
  }

  lemma ArgsShape(p: Program, es: seq<Expr>, data: Json)
    ensures es == [] ==> ArgsCode(p.Pointer(), es) == [] && WorthAll(p, data, es) == Some([])
    ensures es != [] ==>
      var front, last := es[..|es| - 1], es[|es| - 1];
      && ArgsCode(p.Pointer(), es) == ArgsCode(p.Pointer(), front) + ExprCode(p.Pointer(), last)
      && WorthAll(p, data, es) ==
         match WorthAll(p, data, front)
         case None => None
         case Some(vs) =>
           match Worth(p, data, last)
           case None => None
           case Some(v) => Some(vs + [v])
  {
    hide Actual, Eval, ExprCode;
    if es != [] {
      var front, last := ActualArgs(p.Pointer(), es[..|es| - 1]), Actual(p.Pointer(), es[|es| - 1]);
      if front.Some? && last.Some? {
        var all := front.value + [last.value];
        assert ActualArgs(p.Pointer(), es) == Some(all);
        assert all[..|all| - 1] == front.value && all[|all| - 1] == last.value;
      }
    }
  }

  lemma {:induction false} ArgsRun(p: Program, es: seq<Expr>, st: State)
    requires st.status.Running? && p.Holds(st.pc, ArgsCode(p.Pointer(), es))
    requires forall a :: a in es ==> Sound(p.Pointer(), a)
    ensures match WorthAll(p, p.Data(st), es)
            case Some(vs) =>
              Reaches(p, st, st.(pc := st.pc + |ArgsCode(p.Pointer(), es)|, stack := st.stack + vs))
            case None => FailsWith(p, st, st.out)
    decreases es, 1
  {
    hide Reaches, FailsWith, Step, ExprCode, Worth, Sound, ArgsCode, WorthAll;
    ArgsShape(p, es, p.Data(st));
    if es == [] {
      Stay(p, st);
      assert st.stack + [] == st.stack;
    } else {
      var front, last := es[..|es| - 1], es[|es| - 1];
      var cf, cl := ArgsCode(p.Pointer(), front), ExprCode(p.Pointer(), last);
      HoldsTwo(p, st.pc, cf, cl);
      ArgsRun(p, front, st);
      var vs := WorthAll(p, p.Data(st), front);
      if vs.Some? {
        var s := st.(pc := st.pc + |cf|, stack := st.stack + vs.value);
        ExprRuns(p, last, s);
        var v := Worth(p, p.Data(st), last);
        if v.Some? {
          assert st.stack + vs.value + [v.value] == st.stack + (vs.value + [v.value]);
          Chain(p, st, s, s.(pc := s.pc + |cl|, stack := s.stack + [v.value]));
        } else {
          ChainFails(p, st, s, st.out);
        }
      }
    }
  }

  /** The state in which `bc`, the call on `args`, is next and finds its arguments; or the run throws. */
  ghost predicate ReadyOrFails(p: Program, args: seq<Expr>, size: nat, bc: Bytecode, st: State, s: State)
    requires size > 0
  {
    match WorthAll(p, p.Data(st), args)
    case Some(vs) =>
      && Reaches(p, st, s) && s == st.(pc := st.pc + size - 1, stack := s.stack)
      && s.pc < |p.code| && p.code[s.pc] == bc
      && Take(p.env, p.Data(st), bc, s.stack) == Operands(vs, st.stack)
    case None => FailsWith(p, st, st.out)
  }

  lemma {:induction false} ArgsReady(p: Program, args: seq<Expr>, fragment: Code, bc: Bytecode, st: State) returns (s: State)
    requires st.status.Running? && args != [] && forall a :: a in args ==> Sound(p.Pointer(), a)
    requires CallInstruction(p.Pointer(), args, fragment, bc) && p.Holds(st.pc, fragment)
    ensures ReadyOrFails(p, args, |fragment|, bc, st, s)
    decreases args, 2
  {
    hide Reaches, FailsWith, Step, Take, Worth, WorthAll, ExprCode, ArgsCode, Sound;
    var code := ArgsCode(p.Pointer(), args);
    if bc.flag.Pop? && fragment == code + [bc] {
      HoldsTwo(p, st.pc, code, [bc]);
      ArgsRun(p, args, st);
      var vs := WorthAll(p, p.Data(st), args);
      s := st.(pc := st.pc + |code|);
      if vs.Some? {
        s := s.(stack := st.stack + vs.value);
        PlainTake(p, p.Data(st), bc, st.stack, vs.value);
        assert p.code[s.pc] == p.code[s.pc..s.pc + 1][0] == bc;
        assert |fragment| == |code| + 1;
      }
    } else {
      FusedShape(p, args, fragment, bc);
      var front, last := args[..|args| - 1], args[|args| - 1];
      assert front + [last] == args;
      s := FusedReady(p, front, last, bc, st);
    }
  }

  lemma FusedShape(p: Program, args: seq<Expr>, fragment: Code, bc: Bytecode)
    requires args != [] && CallInstruction(p.Pointer(), args, fragment, bc)
    requires !(bc.flag.Pop? && fragment == ArgsCode(p.Pointer(), args) + [bc])
    ensures var front, last := args[..|args| - 1], args[|args| - 1];
            && fragment == ArgsCode(p.Pointer(), front) + [bc] && Leaf(last)
            && var push := ExprCode(p.Pointer(), last)[0];
               bc.flag == push.flag && bc.value == push.value && (bc.flag.Immediate? || bc.str == push.str)
  {
  }

  lemma {:induction false} FusedReady(p: Program, front: seq<Expr>, last: Expr, bc: Bytecode, st: State) returns (s: State)
    requires st.status.Running? && (forall a :: a in front ==> Sound(p.Pointer(), a)) && Leaf(last)
    requires TakesArguments(bc.op) && bc.args == |front| + 1
    requires var push := ExprCode(p.Pointer(), last)[0];
             bc.flag == push.flag && bc.value == push.value && (bc.flag.Immediate? || bc.str == push.str)
    requires p.Holds(st.pc, ArgsCode(p.Pointer(), front) + [bc])
    ensures ReadyOrFails(p, front + [last], |ArgsCode(p.Pointer(), front)| + 1, bc, st, s)
    decreases front + [last], 1
  {
    hide *;
    var cf := ArgsCode(p.Pointer(), front);
    HoldsTwo(p, st.pc, cf, [bc]);
    assert (front + [last])[..|front|] == front;
    ArgsRun(p, front, st);
    var vs := WorthAll(p, p.Data(st), front);
    s := st.(pc := st.pc + |cf|);
    if vs.Some? {
      s := s.(stack := st.stack + vs.value);
      FusedFinish(p, front, last, bc, st, s, vs.value);
    } else {
      ArgsFail(p, front, last, |cf| + 1, bc, st, s);
    }
  }

  lemma ArgsFail(p: Program, front: seq<Expr>, last: Expr, size: nat, bc: Bytecode, st: State, s: State)
    requires size > 0 && WorthAll(p, p.Data(st), front).None? && FailsWith(p, st, st.out)
    ensures ReadyOrFails(p, front + [last], size, bc, st, s)
  {
    hide FailsWith, Take, Worth, WorthAll, Reaches, ArgsCode;
    assert (front + [last])[..|front|] == front;
    ArgsShape(p, front + [last], p.Data(st));
  }

  lemma FusedFinish(p: Program, front: seq<Expr>, last: Expr, bc: Bytecode, st: State, s: State, vs: seq<Json>)
    requires st.status.Running? && Leaf(last) && TakesArguments(bc.op) && bc.args == |front| + 1
    requires var push := ExprCode(p.Pointer(), last)[0];
             bc.flag == push.flag && bc.value == push.value && (bc.flag.Immediate? || bc.str == push.str)
    requires s == st.(pc := s.pc, stack := st.stack + vs) && Reaches(p, st, s) && p.Holds(s.pc, [bc]) && s.pc >= st.pc
    requires WorthAll(p, p.Data(st), front) == Some(vs)
    ensures ReadyOrFails(p, front + [last], s.pc - st.pc + 1, bc, st, s)
  {
    hide Reaches, FailsWith, Step, Take, Eval, Worth, WorthAll, ExprCode, ArgsCode, Sound, TakesArguments;
    assert (front + [last])[..|front|] == front;
    ArgsShape(p, front + [last], p.Data(st));
    assert p.code[s.pc..s.pc + 1][0] == bc;
    FusedTake(p, p.Data(st), last, bc, st.stack, vs);
    LeafWorth(p, p.Data(st), last);
    if Worth(p, p.Data(st), last).None? { TakeThrows(p, st, s); }
  }

  lemma {:induction false} CallRuns(p: Program, e: Expr, st: State)
    requires st.status.Running? && p.Holds(st.pc, ExprCode(p.Pointer(), e)) && Sound(p.Pointer(), e) && IsCall(e)
    ensures match Worth(p, p.Data(st), e)
            case Some(v) =>
              Reaches(p, st, st.(pc := st.pc + |ExprCode(p.Pointer(), e)|, stack := st.stack + [v]))
            case None => FailsWith(p, st, st.out)
    decreases e.args, 3
  {
    hide Reaches, FailsWith, Step, Worth, ExprCode, ArgsCode, Actual, ActualArgs, Compiles, Counted, Eval;
    hide AppendFunction, ReadyOrFails, EvalAll, WorthAll, CallInstruction;
    CallWorth(p, p.Data(st), e);
    var code := ExprCode(p.Pointer(), e);
    var bc := code[|code| - 1];
    var s := st;
    CallParts(p, e, p.Data(st));
    if e.args == [] {
      s := NothingToTake(p, bc, st, code);
    } else {
      s := ArgsReady(p, e.args, code, bc, st);
    }
    var actual := e.(args := ActualArgs(p.Pointer(), e.args).value);
    ReadyCallRuns(p, e.args, code, bc, actual, st, s);
  }

  lemma NothingToTake(p: Program, bc: Bytecode, st: State, code: Code) returns (s: State)
    requires st.status.Running? && code == [bc] && bc.flag.Pop? && bc.args == 0 && p.Holds(st.pc, code)
    requires WorthAll(p, p.Data(st), []) == Some([])
    ensures ReadyOrFails(p, [], |code|, bc, st, s)
  {
    hide Take, Reaches;
    s := st;
    Stay(p, st);
    assert st.stack + [] == st.stack;
    PlainTake(p, p.Data(st), bc, st.stack, []);
    assert p.code[s.pc] == p.code[s.pc..s.pc + 1][0];
  }

  lemma CallWorth(p: Program, data: Json, e: Expr)
    requires Sound(p.Pointer(), e) && IsCall(e)
    ensures ActualArgs(p.Pointer(), e.args).Some?
    ensures var actual := e.(args := ActualArgs(p.Pointer(), e.args).value);
            && Worth(p, data, e) == Eval(p.env, p.root, data, actual)
            && WorthAll(p, data, e.args) == EvalAll(p.env, p.root, data, actual.args)
            && IsCall(actual) && |actual.args| == |e.args|
  {
    hide Actual, ActualArgs, Eval, EvalAll, Compiles, Counted;
    CallActual(p.Pointer(), e);
  }

  /** A call whose instruction finds the arguments of `actual`. */
  lemma ReadyCallRuns(p: Program, args: seq<Expr>, fragment: Code, bc: Bytecode, actual: Expr, st: State, s: State)
    requires st.status.Running? && fragment != [] && ReadyOrFails(p, args, |fragment|, bc, st, s)
    requires IsCall(actual) && WorthAll(p, p.Data(st), args) == EvalAll(p.env, p.root, p.Data(st), actual.args)
    requires if actual.Invoke? then bc.op.Callback? && bc.str == actual.name && bc.args == |actual.args| else bc.op == actual.op
    ensures match Eval(p.env, p.root, p.Data(st), actual)
            case Some(v) => Reaches(p, st, st.(pc := st.pc + |fragment|, stack := st.stack + [v]))
            case None => FailsWith(p, st, st.out)
  {
    hide Reaches, FailsWith, Take, Eval, EvalAll, WorthAll;
    CallNone(p, actual, p.Data(st));
    var vs := WorthAll(p, p.Data(st), args);
    if vs.Some? { CallFinish(p, actual, bc, st, s, vs.value); }
  }

  /** What the code of a call looks like, and what its arguments keep. */
  lemma CallParts(p: Program, e: Expr, data: Json)
    requires Sound(p.Pointer(), e) && IsCall(e)
    ensures var code := ExprCode(p.Pointer(), e);
            var bc := code[|code| - 1];
            && (forall a :: a in e.args ==> Sound(p.Pointer(), a))
            && (e.Operation? ==> |e.args| == Arity(e.op) > 0)
            && (if e.Invoke? then bc.op.Callback? && bc.str == e.name && bc.args == |e.args| else bc.op == e.op)
            && (e.args == [] ==> |code| == 1 && bc.flag.Pop? && bc.args == 0 && WorthAll(p, data, []) == Some([]))
            && (e.args != [] ==> CallInstruction(p.Pointer(), e.args, code, bc))
  {
    hide WorthAll, ExprCode, ArgsCode, CallInstruction, Take, NoLiteralBeforeNullary, Actual, ActualArgs;
    ArgsShape(p, [], data);
    CallActual(p.Pointer(), e);
    ActualArgsEach(p.Pointer(), e.args);
    if e.Invoke? { CallbackCode(p.Pointer(), e); } else { BuiltinCode(p.Pointer(), e); }
  }

  lemma CallbackCode(pointer: bool, e: Expr)
    requires e.Invoke? && |e.args| < ARGS_LIMIT
    ensures var code := ExprCode(pointer, e);
            var bc := code[|code| - 1];
            && bc.op.Callback? && bc.str == e.name && bc.args == |e.args|
            && (e.args == [] ==> |code| == 1 && bc.flag.Pop? && bc.args == 0)
            && (e.args != [] ==> CallInstruction(pointer, e.args, code, bc))
  {
    var args := ArgsCode(pointer, e.args);
    assert e.args == [] ==> args == [];
    hide ArgsCode;
    assert ExprCode(pointer, e) == AppendCallback(args, e.name, |e.args|);
  }

  lemma BuiltinCode(pointer: bool, e: Expr)
    requires e.Operation? && !e.op.Default? && |e.args| == Arity(e.op) > 0
    ensures var code := ExprCode(pointer, e);
            var bc := code[|code| - 1];
            bc.op == e.op && CallInstruction(pointer, e.args, code, bc)
  {
    hide ArgsCode;
    assert ExprCode(pointer, e) == AppendFunction(ArgsCode(pointer, e.args), e.op, |e.args|);
  }

  lemma CallNone(p: Program, e: Expr, data: Json)
    requires e.Invoke? || (e.Operation? && !e.op.Default?)
    ensures EvalAll(p.env, p.root, data, e.args).None? ==> Eval(p.env, p.root, data, e).None?
  {
  }

  /** The call itself, once it has its arguments. */
  lemma CallFinish(p: Program, e: Expr, bc: Bytecode, st: State, s: State, vs: seq<Json>)
    requires e.Invoke? || (e.Operation? && !e.op.Default? && |e.args| == Arity(e.op) > 0)
    requires if e.Invoke? then bc.op.Callback? && bc.str == e.name && bc.args == |e.args| else bc.op == e.op
    requires st.status.Running? && Reaches(p, st, s) && s == st.(pc := s.pc, stack := s.stack)
    requires s.pc < |p.code| && p.code[s.pc] == bc
    requires EvalAll(p.env, p.root, p.Data(st), e.args) == Some(vs)
    requires Take(p.env, p.Data(s), bc, s.stack) == Operands(vs, st.stack)
    ensures match Eval(p.env, p.root, p.Data(st), e)
            case Some(v) => Reaches(p, st, st.(pc := s.pc + 1, stack := st.stack + [v]))
            case None => FailsWith(p, st, st.out)
  {
    hide Reaches, FailsWith, Step, Take, Apply, Eval, EvalAll;
    CallTakesOneStep(p, e, bc, st.stack, vs, s);
    OneStep(p, s);
    var t := Step(p.env, p.root, bc, s);
    if t.status.Failed? { FailsNext(p, st, s); } else { Chain(p, st, s, t); }
  }

  lemma CallTakesOneStep(p: Program, e: Expr, bc: Bytecode, below: seq<Json>, vs: seq<Json>, s: State)
    requires e.Invoke? || (e.Operation? && !e.op.Default? && |e.args| == Arity(e.op) > 0)
    requires if e.Invoke? then bc.op.Callback? && bc.str == e.name && bc.args == |e.args| else bc.op == e.op
    requires EvalAll(p.env, p.root, p.Data(s), e.args) == Some(vs)
    requires Take(p.env, p.Data(s), bc, s.stack) == Operands(vs, below)
    ensures Step(p.env, p.root, bc, s) ==
            match Eval(p.env, p.root, p.Data(s), e)
            case Some(v) => s.(pc := s.pc + 1, stack := below + [v])
            case None => Fault(s, true)
  {
    hide Take, Apply, Step, CallStep;
    StepIsCall(p, bc, s);
    if e.Invoke? { CallbackSteps(p, e, bc, below, vs, s); } else { BuiltinSteps(p, e, bc, below, vs, s); }
  }

  lemma StepIsCall(p: Program, bc: Bytecode, s: State)
    requires TakesArguments(bc.op) && !bc.op.PrintValue?
    ensures Step(p.env, p.root, bc, s) == CallStep(p.env, p.root, bc, s)
  {
    hide CallStep, PrintStep, OperandStep, ControlStep;
  }

  lemma CallbackSteps(p: Program, e: Expr, bc: Bytecode, below: seq<Json>, vs: seq<Json>, s: State)
    requires e.Invoke? && bc.op.Callback? && bc.str == e.name && bc.args == |e.args|
    requires EvalAll(p.env, p.root, p.Data(s), e.args) == Some(vs)
    requires Take(p.env, p.Data(s), bc, s.stack) == Operands(vs, below)
    ensures CallStep(p.env, p.root, bc, s) ==
            match Eval(p.env, p.root, p.Data(s), e)
            case Some(v) => s.(pc := s.pc + 1, stack := below + [v])
            case None => Fault(s, true)
  {
    hide Take, Apply, EvalAll;
  }

  lemma BuiltinSteps(p: Program, e: Expr, bc: Bytecode, below: seq<Json>, vs: seq<Json>, s: State)
    requires e.Operation? && !e.op.Default? && |e.args| == Arity(e.op) > 0 && bc.op == e.op
    requires EvalAll(p.env, p.root, p.Data(s), e.args) == Some(vs)
    requires Take(p.env, p.Data(s), bc, s.stack) == Operands(vs, below)
    ensures CallStep(p.env, p.root, bc, s) ==
            match Eval(p.env, p.root, p.Data(s), e)
            case Some(v) => s.(pc := s.pc + 1, stack := below + [v])
            case None => Fault(s, true)
  {
    hide Take, Apply, EvalAll;
  }

  // ----- Statements -----

  /** What the code of a template prints: the meaning of what it actually does. */
  function Meaning(p: Program, data: Json, b: Body): Output {
    Render(p.env, p.root, data, ActualBody(p.Pointer(), b))
  }

  function NodeMeaning(p: Program, data: Json, n: Node): Output {
    RenderNode(p.env, p.root, data, ActualNode(p.Pointer(), n))
  }

  function ChainMeaning(p: Program, data: Json, c: Chain): Output {
    RenderChain(p.env, p.root, data, ActualChain(p.Pointer(), c))
  }

  /** From `s` the run prints `o.text` and then stands at `pc` with nothing else changed, or throws. */
  ghost predicate Yields(p: Program, s: State, pc: nat, o: Output) {
    if o.ok then Reaches(p, s, s.(pc := pc, out := s.out + o.text)) else FailsWith(p, s, s.out + o.text)
  }

  lemma YieldsAfter(p: Program, s: State, t: State, pc: nat, o: Output)
    requires Reaches(p, s, t) && t == s.(pc := t.pc) && Yields(p, t, pc, o)
    ensures Yields(p, s, pc, o)
  {
    hide Reaches, FailsWith;
    if o.ok { Chain(p, s, t, t.(pc := pc, out := t.out + o.text)); } else { ChainFails(p, s, t, s.out + o.text); }
  }

  lemma YieldsThen(p: Program, s: State, mid: nat, first: Output, pc: nat, second: Output)
    requires Yields(p, s, mid, first)
    requires first.ok ==> Yields(p, s.(pc := mid, out := s.out + first.text), pc, second)
    ensures Yields(p, s, pc, Then(first, second))
  {
    hide Reaches, FailsWith;
    if first.ok {
      var t := s.(pc := mid, out := s.out + first.text);
      assert s.out + first.text + second.text == s.out + (first.text + second.text);
      if second.ok {
        Chain(p, s, t, t.(pc := pc, out := t.out + second.text));
      } else {
        ChainFails(p, s, t, t.out + second.text);
      }
    }
  }

  lemma YieldsNothing(p: Program, s: State)
    ensures Yields(p, s, s.pc, Output("", true))
  {
    Stay(p, s);
    assert s.out + "" == s.out;
  }

  lemma ThrowsNow(p: Program, s: State, pc: nat)
    requires FailsWith(p, s, s.out)
    ensures Yields(p, s, pc, Aborted)
  {
    assert s.out + "" == s.out;
  }

  /** A jump at the end of a branch. */
  lemma JumpsTo(p: Program, s: State, target: nat)
    requires s.status.Running? && p.Holds(s.pc, [Plain(Jump, target)])
    ensures Yields(p, s, target, Output("", true))
  {
    assert p.code[s.pc] == p.code[s.pc..s.pc + 1][0];
    OneStep(p, s);
    assert s.out + "" == s.out;
  }

  lemma {:induction false} BodyRuns(p: Program, b: Body, st: State)
    requires st.status.Running? && SoundBody(p.Pointer(), b)
    requires p.Holds(st.pc, BodyCode(p.Pointer(), b, st.pc))
    ensures Yields(p, st, st.pc + BodySize(p.Pointer(), b), Meaning(p, p.Data(st), b))
    decreases b, 2
  {
    hide Yields, Meaning, NodeMeaning, NodeCode, NodeSize, SoundNode;
    MeaningUnfolds(p, p.Data(st), b);
    match b
    case Nil => YieldsNothing(p, st);
    case Cons(head, rest) =>
      var c1 := NodeCode(p.Pointer(), head, st.pc);
      var mid := st.pc + NodeSize(p.Pointer(), head);
      var c2 := BodyCode(p.Pointer(), rest, mid);
      HoldsTwo(p, st.pc, c1, c2);
      NodeRuns(p, head, st);
      var o := NodeMeaning(p, p.Data(st), head);
      var t := st.(pc := mid, out := st.out + o.text);
      BodyRuns(p, rest, t);
      YieldsThen(p, st, mid, o, mid + BodySize(p.Pointer(), rest), Meaning(p, p.Data(t), rest));
  }

  lemma MeaningUnfolds(p: Program, data: Json, b: Body)
    ensures Meaning(p, data, b) == match b
                                   case Nil => Output("", true)
                                   case Cons(head, rest) => Then(NodeMeaning(p, data, head), Meaning(p, data, rest))
  {
    hide RenderNode, ActualNode;
  }

  lemma IfMeaning(p: Program, data: Json, n: Node)
    requires n.If?
    ensures NodeMeaning(p, data, n) == ChainMeaning(p, data, n.chain)
  {
    hide RenderChain, ActualChain;
  }

  lemma PrintMeaning(p: Program, data: Json, n: Node)
    requires n.Print? && Sound(p.Pointer(), n.e)
    ensures NodeMeaning(p, data, n) == match Worth(p, data, n.e)
                                       case None => Aborted
                                       case Some(v) => Output(Shown(p.env, v), true)
  {
    hide Actual, Eval, Shown;
  }

  lemma {:induction false} NodeRuns(p: Program, n: Node, st: State)
    requires st.status.Running? && SoundNode(p.Pointer(), n)
    requires p.Holds(st.pc, NodeCode(p.Pointer(), n, st.pc))
    ensures Yields(p, st, st.pc + NodeSize(p.Pointer(), n), NodeMeaning(p, p.Data(st), n))
    decreases n, 3
  {
    hide Yields, ChainMeaning, ChainCode, LoopCode, ChainSize, BodySize, RenderItems, RenderEntries, Worth;
    hide ExprCode, Sound, Worth, SoundBody, SoundChain, RenderLoop, WithParent, AppendFunction;
    match n
    case Text(text) => TextRuns(p, text, st);
    case Comment => YieldsNothing(p, st);
    case Print(e) =>
      PrintRuns(p, e, st);
      PrintMeaning(p, p.Data(st), n);
    case If(_, chain) =>
      ChainRuns(p, chain, st, st.pc + ChainSize(p.Pointer(), chain));
      IfMeaning(p, p.Data(st), n);
    case ForItem(_, item, over, body, _) =>
      LoopRuns(p, Null, item, over, body, st);
      LoopMeaning(p, p.Data(st), n, Null, item, over, body);
    case ForEntry(_, key, item, over, body, _) =>
      LoopRuns(p, String(key), item, over, body, st);
      LoopMeaning(p, p.Data(st), n, String(key), item, over, body);
  }

  lemma LoopMeaning(p: Program, data: Json, n: Node, key: Json, item: string, over: Expr, body: Body)
    requires n.ForItem? || n.ForEntry?
    requires n.over == over && n.body == body && n.item == item && key == if n.ForItem? then Null else String(n.key)
    requires Sound(p.Pointer(), over)
    ensures NodeMeaning(p, data, n) ==
            match Worth(p, data, over)
            case None => Aborted
            case Some(v) => RenderLoop(p, data, key, item, v, body)
    ensures NodeSize(p.Pointer(), n) == |ExprCode(p.Pointer(), over)| + 1 + BodySize(p.Pointer(), body) + 1
  {
    hide WithParent, RenderItems, RenderEntries, Actual, ActualBody, Eval, ExprCode, BodySize, Entries;
  }

  lemma TextRuns(p: Program, text: string, st: State)
    requires st.status.Running? && p.Holds(st.pc, [Plain(PrintText, 0).(str := text)])
    ensures Yields(p, st, st.pc + 1, Output(text, true))
  {
    assert p.code[st.pc] == p.code[st.pc..st.pc + 1][0];
    OneStep(p, st);
  }

  lemma PrintRuns(p: Program, e: Expr, st: State)
    requires st.status.Running? && Sound(p.Pointer(), e)
    requires p.Holds(st.pc, AppendFunction(ExprCode(p.Pointer(), e), PrintValue, 1))
    ensures Yields(p, st, st.pc + |AppendFunction(ExprCode(p.Pointer(), e), PrintValue, 1)|,
                   match Worth(p, p.Data(st), e)
                   case None => Aborted
                   case Some(v) => Output(Shown(p.env, v), true))
  {
    hide Reaches, FailsWith, Take, Worth, WorthAll, ExprCode, ArgsCode, Sound;
    var fragment := AppendFunction(ExprCode(p.Pointer(), e), PrintValue, 1);
    var bc := fragment[|fragment| - 1];
    PrintShape(p, e, p.Data(st));
    var s := ArgsReady(p, [e], fragment, bc, st);
    if Worth(p, p.Data(st), e).Some? {
      OneStep(p, s);
      Chain(p, st, s, Step(p.env, p.root, bc, s));
    } else {
      ThrowsNow(p, st, st.pc + |fragment|);
    }
  }

  lemma PrintShape(p: Program, e: Expr, data: Json)
    ensures var fragment := AppendFunction(ExprCode(p.Pointer(), e), PrintValue, 1);
            CallInstruction(p.Pointer(), [e], fragment, fragment[|fragment| - 1])
            && fragment[|fragment| - 1].op.PrintValue?
    ensures WorthAll(p, data, [e]) ==
            match Worth(p, data, e)
            case None => None
            case Some(v) => Some([v])
  {
    hide Worth, ExprCode, ArgsCode, WorthAll;
    SingleArg(p, e, data);
  }

  lemma SingleArg(p: Program, e: Expr, data: Json)
    ensures ArgsCode(p.Pointer(), [e]) == ExprCode(p.Pointer(), e)
    ensures WorthAll(p, data, [e]) ==
            match Worth(p, data, e)
            case None => None
            case Some(v) => Some([v])
  {
    hide Worth, ExprCode, ArgsCode, WorthAll;
    assert [e][..0] == [] && [e][0] == e;
    ArgsShape(p, [e], data);
    ArgsShape(p, [], data);
    var v := Worth(p, data, e);
    if v.Some? { assert [] + [v.value] == [v.value]; }
  }

  /** The condition of an `if`: falls through when true, jumps when false. */
  lemma ConditionRuns(p: Program, cond: Expr, target: nat, st: State)
    requires st.status.Running? && Sound(p.Pointer(), cond)
    requires p.Holds(st.pc, ExprCode(p.Pointer(), cond) + [Plain(ConditionalJump, target)])
    ensures var v := Worth(p, p.Data(st), cond);
            if v.None? || Truthy(v.value).None? then FailsWith(p, st, st.out)
            else Reaches(p, st, st.(pc := if Truthy(v.value).value then st.pc + |ExprCode(p.Pointer(), cond)| + 1 else target))
  {
    hide Reaches, FailsWith, Worth, ExprCode, Sound;
    var ec, cj := ExprCode(p.Pointer(), cond), [Plain(ConditionalJump, target)];
    HoldsTwo(p, st.pc, ec, cj);
    ExprRuns(p, cond, st);
    var v := Worth(p, p.Data(st), cond);
    if v.Some? {
      var s := st.(pc := st.pc + |ec|, stack := st.stack + [v.value]);
      assert p.code[s.pc] == p.code[s.pc..s.pc + 1][0] == cj[0];
      if Truthy(v.value).None? {
        FailsNext(p, st, s);
      } else {
        OneStep(p, s);
        assert s.stack[..|s.stack| - 1] == st.stack;
        Chain(p, st, s, Step(p.env, p.root, cj[0], s));
      }
    }
  }

  lemma {:induction false} ChainRuns(p: Program, c: Chain, st: State, end: nat)
    requires st.status.Running? && SoundChain(p.Pointer(), c)
    requires end == st.pc + ChainSize(p.Pointer(), c)
    requires p.Holds(st.pc, ChainCode(p.Pointer(), c, st.pc, end))
    ensures Yields(p, st, end, ChainMeaning(p, p.Data(st), c))
    decreases c, 4
  {
    hide *;
    ChainParts(p, c, p.Data(st));
    var ec := ExprCode(p.Pointer(), c.cond);
    var first := st.pc + |ec| + 1;
    var next := first + BodySize(p.Pointer(), c.yes);
    var target := if c.tail.EndIf? then end else next + 1;
    var cj := [Plain(ConditionalJump, target)];
    var yes, tail := BodyCode(p.Pointer(), c.yes, first), TailCode(p.Pointer(), c.tail, next, end);
    ChainShape(p.Pointer(), c, st.pc, end);
    HoldsPart(p, st.pc, ec + cj, yes, tail);
    ConditionRuns(p, c.cond, target, st);
    var v := Worth(p, p.Data(st), c.cond);
    if v.None? || Truthy(v.value).None? {
      ThrowsNow(p, st, end);
    } else if Truthy(v.value).value {
      YesRuns(p, c, st, first, next, end);
      SameData(p, st, first);
      YieldsAfter(p, st, st.(pc := first), end, ChainMeaning(p, p.Data(st), c));
    } else {
      NoRuns(p, c.tail, st.(pc := target), next, end);
      TailMeaning(p, c, st);
      SameData(p, st, target);
      YieldsAfter(p, st, st.(pc := target), end, RenderTail(p, st, c.tail));
    }
  }

  lemma SameData(p: Program, st: State, pc: nat)
    ensures p.Data(st.(pc := pc)) == p.Data(st)
    ensures forall t :: RenderTail(p, st.(pc := pc), t) == RenderTail(p, st, t)
  {
    hide Meaning, ChainMeaning;
  }

  lemma ChainParts(p: Program, c: Chain, data: Json)
    requires SoundChain(p.Pointer(), c)
    ensures Sound(p.Pointer(), c.cond) && SoundBody(p.Pointer(), c.yes) && SoundTail(p.Pointer(), c.tail)
    ensures ChainSize(p.Pointer(), c)
         == |ExprCode(p.Pointer(), c.cond)| + 1 + BodySize(p.Pointer(), c.yes) + TailSize(p.Pointer(), c.tail)
    ensures c.tail.EndIf? ==> TailSize(p.Pointer(), c.tail) == 0
    ensures var v := Worth(p, data, c.cond);
            && (v.None? || Truthy(v.value).None? ==> ChainMeaning(p, data, c) == Aborted)
            && (v.Some? && Truthy(v.value) == Some(true) ==>
                  ChainMeaning(p, data, c) == Meaning(p, data, c.yes))
  {
    hide Compiles, Counted, Actual, SoundBody, ActualBody, ExprCode, BodySize, Eval, Truthy, Render;
  }

  lemma TailMeaning(p: Program, c: Chain, st: State)
    requires Sound(p.Pointer(), c.cond)
    requires var v := Worth(p, p.Data(st), c.cond);
             v.Some? && Truthy(v.value).Some? && !Truthy(v.value).value
    ensures ChainMeaning(p, p.Data(st), c) == RenderTail(p, st, c.tail)
  {
    hide Eval, Actual, ActualBody, Truthy, Render;
    var a := ActualChain(p.Pointer(), c);
    assert a.tail == ActualTail(p.Pointer(), c.tail);
    match c.tail {
      case EndIf(_) =>
      case Else(open, no, close) => assert a.tail == Else(open, ActualBody(p.Pointer(), no), close);
      case ElseIf(open, next) => assert a.tail == ElseIf(open, ActualChain(p.Pointer(), next));
    }
  }

  lemma ChainShape(pointer: bool, c: Chain, at: nat, end: nat)
    ensures var first := at + |ExprCode(pointer, c.cond)| + 1;
            var next := first + BodySize(pointer, c.yes);
            ChainCode(pointer, c, at, end)
            == ExprCode(pointer, c.cond) + [Plain(ConditionalJump, if c.tail.EndIf? then end else next + 1)]
               + BodyCode(pointer, c.yes, first) + TailCode(pointer, c.tail, next, end)
  {
    hide ExprCode, BodyCode, BodySize, TailCode;
  }

  /** What is rendered when a condition is false. */
  ghost function RenderTail(p: Program, st: State, t: Tail): Output {
    match t
    case EndIf(_) => Output("", true)
    case Else(_, no, _) => Meaning(p, p.Data(st), no)
    case ElseIf(_, next) => ChainMeaning(p, p.Data(st), next)
  }

  lemma {:induction false} YesRuns(p: Program, c: Chain, st: State, first: nat, next: nat, end: nat)
    requires st.status.Running? && SoundBody(p.Pointer(), c.yes)
    requires next == first + BodySize(p.Pointer(), c.yes) && end == next + TailSize(p.Pointer(), c.tail)
    requires p.Holds(first, BodyCode(p.Pointer(), c.yes, first))
    requires p.Holds(next, TailCode(p.Pointer(), c.tail, next, end))
    ensures Yields(p, st.(pc := first), end, Meaning(p, p.Data(st), c.yes))
    decreases c, 3
  {
    hide Yields, Reaches, FailsWith, BodyCode, BodySize, Meaning, ChainCode, ChainSize;
    var s := st.(pc := first);
    BodyRuns(p, c.yes, s);
    var o := Meaning(p, p.Data(st), c.yes);
    if !c.tail.EndIf? {
      var jump := [Plain(Jump, end)];
      var code := TailCode(p.Pointer(), c.tail, next, end);
      assert jump + code[1..] == code;
      HoldsTwo(p, next, jump, code[1..]);
      JumpsTo(p, s.(pc := next, out := s.out + o.text), end);
      YieldsThen(p, s, next, o, end, Output("", true));
      assert Then(o, Output("", true)) == o;
    }
  }

  /** The part of a chain after a false condition; `next` is where the preceding branch ended. */
  lemma {:induction false} NoRuns(p: Program, t: Tail, st: State, next: nat, end: nat)
    requires st.status.Running? && SoundTail(p.Pointer(), t)
    requires end == next + TailSize(p.Pointer(), t)
    requires st.pc == if t.EndIf? then end else next + 1
    requires p.Holds(next, TailCode(p.Pointer(), t, next, end))
    ensures Yields(p, st, end, RenderTail(p, st, t))
    decreases t, 5
  {
    hide Yields, Reaches, FailsWith, BodyCode, BodySize, Meaning, ChainCode, ChainSize, ChainMeaning;
    if t.EndIf? {
      YieldsNothing(p, st);
    } else {
      var jump := [Plain(Jump, end)];
      var code := TailCode(p.Pointer(), t, next, end);
      assert jump + code[1..] == code;
      HoldsTwo(p, next, jump, code[1..]);
      match t
      case Else(_, no, _) =>
        assert code[1..] == BodyCode(p.Pointer(), no, next + 1);
        BodyRuns(p, no, st);
      case ElseIf(_, chain) =>
        assert code[1..] == ChainCode(p.Pointer(), chain, next + 1, end);
        ChainRuns(p, chain, st, end);
    }
  }

  // ----- Loops -----

  /** What a loop iterates over, with the names it binds. */
  datatype Iteration =
    | OverItems(item: string, items: seq<Json>)
    | OverEntries(key: string, item: string, entries: seq<(string, Json)>)
  {
    function Count(): nat { if OverItems? then |items| else |entries| }
    function Bind(base: Json, k: nat): Option<Json>
      requires k < Count()
    {
      if OverItems? then BindItem(base, item, items, k) else BindEntry(base, key, item, entries[k])
    }
    function Level(k: nat, data: Json): Level {
      if OverItems? then ItemLevel(item, items, k, data) else EntryLevel(key, item, entries, k, data)
    }
  }

  function RenderFrom(p: Program, it: Iteration, base: Json, k: nat, body: Body): Output
    requires k <= it.Count()
  {
    if it.OverItems? then RenderItems(p.env, p.root, base, it.item, it.items, k, ActualBody(p.Pointer(), body))
    else RenderEntries(p.env, p.root, base, it.key, it.item, it.entries, k, ActualBody(p.Pointer(), body))
  }

  lemma RenderFromUnfolds(p: Program, it: Iteration, base: Json, k: nat, body: Body)
    requires k <= it.Count()
    ensures RenderFrom(p, it, base, k, body) ==
            if k == it.Count() then Output("", true)
            else match it.Bind(base, k)
              case None => Aborted
              case Some(data) => Then(Meaning(p, data, body), RenderFrom(p, it, base, k + 1, body))
  {
    hide BindItem, BindEntry, Render, ActualBody;
  }

  /** Updating the level of iteration `k` gives the fresh bindings of iteration `k + 1`. */
  lemma NextLevel(it: Iteration, base: Json, k: nat, data: Json)
    requires k < it.Count() && it.Bind(base, k) == Some(data)
    ensures var next := it.Level(k, data).(index := k + 1);
            Done(next) == (k + 1 == it.Count())
            && (k + 1 < it.Count() ==>
                  Update(next) == match it.Bind(base, k + 1)
                                  case None => None
                                  case Some(d) => Some(it.Level(k + 1, d)))
  {
    hide BindItem, BindEntry;
    if k + 1 < it.Count() {
      if it.OverItems? {
        RebindItem(base, it.item, it.items, k);
      } else {
        RebindEntry(base, it.key, it.item, it.entries[k], it.entries[k + 1]);
      }
    }
  }

  /** From the body's first instruction in iteration `k` to the end of the loop. */
  ghost predicate LoopYields(p: Program, s: State, outer: seq<Level>, pc: nat, o: Output) {
    if o.ok then Reaches(p, s, s.(pc := pc, loops := outer, out := s.out + o.text)) else FailsWith(p, s, s.out + o.text)
  }

  lemma {:induction false} IterationsRun(p: Program, it: Iteration, base: Json, k: nat, body: Body, s: State,
                                         outer: seq<Level>, data: Json, first: nat, last: nat)
    requires k < it.Count() && it.Bind(base, k) == Some(data)
    requires s.status.Running? && s.pc == first && s.loops == outer + [it.Level(k, data)]
    requires SoundBody(p.Pointer(), body) && p.Holds(first, BodyCode(p.Pointer(), body, first))
    requires last == first + BodySize(p.Pointer(), body) && p.Holds(last, [Plain(EndLoop, first)])
    ensures LoopYields(p, s, outer, last + 1, RenderFrom(p, it, base, k, body))
    decreases body, 4, it.Count() - k, 1
  {
    hide Reaches, FailsWith, Step, BodyCode, BodySize, Meaning, RenderFrom, SoundBody;
    RenderFromUnfolds(p, it, base, k, body);
    BodyRuns(p, body, s);
    var o := Meaning(p, data, body);
    if o.ok {
      var t := s.(pc := last, out := s.out + o.text);
      RepeatRuns(p, it, base, k, body, t, outer, data, first, last);
      LoopYieldsThen(p, s, t, outer, last + 1, o, RenderFrom(p, it, base, k + 1, body));
    }
  }

  lemma LoopYieldsThen(p: Program, s: State, t: State, outer: seq<Level>, pc: nat, first: Output, second: Output)
    requires first.ok && Reaches(p, s, t) && t == s.(pc := t.pc, out := s.out + first.text)
    requires LoopYields(p, t, outer, pc, second)
    ensures LoopYields(p, s, outer, pc, Then(first, second))
  {
    hide Reaches, FailsWith;
    assert s.out + first.text + second.text == s.out + (first.text + second.text);
    if second.ok {
      Chain(p, s, t, t.(pc := pc, loops := outer, out := t.out + second.text));
    } else {
      ChainFails(p, s, t, t.out + second.text);
    }
  }

  /** At the `EndLoop` after iteration `k`. */
  lemma {:induction false} RepeatRuns(p: Program, it: Iteration, base: Json, k: nat, body: Body, t: State,
                                      outer: seq<Level>, data: Json, first: nat, last: nat)
    requires k < it.Count() && it.Bind(base, k) == Some(data)
    requires t.status.Running? && t.pc == last && t.loops == outer + [it.Level(k, data)]
    requires SoundBody(p.Pointer(), body) && p.Holds(first, BodyCode(p.Pointer(), body, first))
    requires last == first + BodySize(p.Pointer(), body) && p.Holds(last, [Plain(EndLoop, first)])
    ensures LoopYields(p, t, outer, last + 1, RenderFrom(p, it, base, k + 1, body))
    decreases body, 4, it.Count() - k, 0
  {
    hide Reaches, FailsWith, BodyCode, BodySize, Meaning, RenderFrom, SoundBody, Update, Done;
    RenderFromUnfolds(p, it, base, k + 1, body);
    NextLevel(it, base, k, data);
    assert p.code[last] == p.code[last..last + 1][0];
    assert t.loops[..|t.loops| - 1] == outer && t.out + "" == t.out;
    var u := Step(p.env, p.root, p.code[last], t);
    if u.status.Failed? {
      Stay(p, t);
      FailsNext(p, t, t);
    } else {
      OneStep(p, t);
      if k + 1 < it.Count() {
        var data' := it.Bind(base, k + 1).value;
        assert u == t.(pc := first, loops := outer + [it.Level(k + 1, data')]);
        IterationsRun(p, it, base, k + 1, body, u, outer, data', first, last);
        LoopEnters(p, t, u, outer, last + 1, RenderFrom(p, it, base, k + 1, body));
      }
    }
  }

  lemma LoopEnters(p: Program, s: State, t: State, outer: seq<Level>, pc: nat, o: Output)
    requires Reaches(p, s, t) && t == s.(pc := t.pc, loops := t.loops) && LoopYields(p, t, outer, pc, o)
    ensures LoopYields(p, s, outer, pc, o)
  {
    hide Reaches, FailsWith;
    if o.ok { Chain(p, s, t, t.(pc := pc, loops := outer, out := t.out + o.text)); } else { ChainFails(p, s, t, s.out + o.text); }
  }

  /** `key` is null for an array loop and the key's name for a key/value loop. */
  ghost function RenderLoop(p: Program, data: Json, key: Json, item: string, v: Json, body: Body): Output {
    if Empty(v) then Output("", true)
    else if !(if key.String? then v.Object? else v.Array?) then Aborted
    else match WithParent(data)
      case None => Aborted
      case Some(base) => RenderFrom(p, Iterate(key, item, v), base, 0, body)
  }

  function Iterate(key: Json, item: string, v: Json): Iteration
    requires if key.String? then v.Object? else v.Array?
  {
    if key.String? then OverEntries(key.s, item, Entries(v.members)) else OverItems(item, v.items)
  }

  lemma OpenLevelIs(bc: Bytecode, data: Json, v: Json)
    requires !Empty(v)
    ensures OpenLevel(bc, data, v) ==
            if !(if bc.value.String? then v.Object? else v.Array?) then None
            else match WithParent(data)
              case None => None
              case Some(base) =>
                match Iterate(bc.value, bc.str, v).Bind(base, 0)
                case None => None
                case Some(d) => Some(Iterate(bc.value, bc.str, v).Level(0, d))
  {
    hide BindItem, BindEntry, WithParent;
    if v.Object? { assert |v.members| > 0 by { var k :| k in v.members; } }
  }

  lemma {:induction false} LoopRuns(p: Program, key: Json, item: string, over: Expr, body: Body, st: State)
    requires st.status.Running? && (key.Null? || key.String?) && Sound(p.Pointer(), over) && SoundBody(p.Pointer(), body)
    requires p.Holds(st.pc, LoopCode(p.Pointer(), key, item, over, body, st.pc))
    ensures var pc := st.pc + |LoopCode(p.Pointer(), key, item, over, body, st.pc)|;
            Yields(p, st, pc, match Worth(p, p.Data(st), over)
                              case None => Aborted
                              case Some(v) => RenderLoop(p, p.Data(st), key, item, v, body))
    decreases body, 6
  {
    hide Reaches, FailsWith, Step, Worth, ExprCode, Sound, BodyCode, BodySize, SoundBody, RenderLoop, Yields;
    hide LoopCode;
    LoopLayout(p, key, item, over, body, st.pc);
    var start := st.pc + |ExprCode(p.Pointer(), over)|;
    var last := start + 1 + BodySize(p.Pointer(), body);
    ExprRuns(p, over, st);
    var v := Worth(p, p.Data(st), over);
    if v.None? {
      ThrowsNow(p, st, last + 1);
    } else {
      var s := st.(pc := start, stack := st.stack + [v.value]);
      LoopFromStart(p, p.code[start], v.value, body, st, s, start + 1, last);
    }
  }

  lemma LoopLayout(p: Program, key: Json, item: string, over: Expr, body: Body, at: nat)
    requires p.Holds(at, LoopCode(p.Pointer(), key, item, over, body, at))
    ensures var ec := ExprCode(p.Pointer(), over);
            var start := at + |ec|;
            var last := start + 1 + BodySize(p.Pointer(), body);
            && p.Holds(at, ec)
            && start < |p.code| && p.code[start] == Bytecode(StartLoop, last, Pop, key, item)
            && p.Holds(start + 1, BodyCode(p.Pointer(), body, start + 1))
            && p.Holds(last, [Plain(EndLoop, start + 1)])
  {
    hide *;
    var ec := ExprCode(p.Pointer(), over);
    var start := at + |ec|;
    var bc := Bytecode(StartLoop, start + 1 + BodySize(p.Pointer(), body), Pop, key, item);
    var bodyCode := BodyCode(p.Pointer(), body, start + 1);
    LoopShape(p.Pointer(), key, item, over, body, at);
    LoopParts(p, at, ec, bc, bodyCode, [Plain(EndLoop, start + 1)]);
  }

  lemma LoopShape(pointer: bool, key: Json, item: string, over: Expr, body: Body, at: nat)
    ensures var start := at + |ExprCode(pointer, over)|;
            LoopCode(pointer, key, item, over, body, at)
            == ExprCode(pointer, over) + [Bytecode(StartLoop, start + 1 + BodySize(pointer, body), Pop, key, item)]
               + BodyCode(pointer, body, start + 1) + [Plain(EndLoop, start + 1)]
  {
    hide ExprCode, BodyCode, BodySize;
  }

  lemma LoopParts(p: Program, at: nat, before: Code, bc: Bytecode, body: Code, after: Code)
    requires p.Holds(at, before + [bc] + body + after)
    ensures var start := at + |before|;
            && p.Holds(at, before)
            && start < |p.code| && p.code[start] == bc
            && p.Holds(start + 1, body)
            && p.Holds(start + 1 + |body|, after)
  {
    HoldsPart(p, at, before + [bc], body, after);
    HoldsTwo(p, at, before, [bc]);
    var start := at + |before|;
    assert p.code[start] == p.code[start..start + 1][0];
  }

  lemma {:induction false} LoopFromStart(p: Program, bc: Bytecode, v: Json, body: Body, st: State, s: State, first: nat, last: nat)
    requires st.status.Running? && s == st.(pc := s.pc, stack := st.stack + [v]) && Reaches(p, st, s)
    requires s.pc + 1 == first && first <= |p.code| && p.code[s.pc] == bc
    requires bc.op.StartLoop? && bc.args == last
    requires SoundBody(p.Pointer(), body) && p.Holds(first, BodyCode(p.Pointer(), body, first))
    requires last == first + BodySize(p.Pointer(), body) && p.Holds(last, [Plain(EndLoop, first)])
    ensures Yields(p, st, last + 1, RenderLoop(p, p.Data(st), bc.value, bc.str, v, body))
    decreases body, 5
  {
    hide Reaches, FailsWith, BodyCode, BodySize, SoundBody, OpenLevel, RenderFrom;
    assert s.stack[|s.stack| - 1] == v && s.stack[..|s.stack| - 1] == st.stack;
    var t := Step(p.env, p.root, bc, s);
    OneStep(p, s);
    if Empty(v) {
      hide Iterate, WithParent;
      Chain(p, st, s, t);
      assert st.out + "" == st.out;
    } else {
      LoopOpens(p, bc, v, body, st, s, first, last);
    }
  }

  /** A value that is not empty: its kind is checked, and the first element bound. */
  lemma {:induction false} LoopOpens(p: Program, bc: Bytecode, v: Json, body: Body, st: State, s: State, first: nat, last: nat)
    requires st.status.Running? && s == st.(pc := s.pc, stack := st.stack + [v]) && Reaches(p, st, s)
    requires s.pc + 1 == first && first <= |p.code| && p.code[s.pc] == bc
    requires bc.op.StartLoop? && bc.args == last && !Empty(v)
    requires SoundBody(p.Pointer(), body) && p.Holds(first, BodyCode(p.Pointer(), body, first))
    requires last == first + BodySize(p.Pointer(), body) && p.Holds(last, [Plain(EndLoop, first)])
    ensures Yields(p, st, last + 1, RenderLoop(p, p.Data(st), bc.value, bc.str, v, body))
    decreases body, 5, 0
  {
    hide Reaches, FailsWith, BodyCode, BodySize, SoundBody, OpenLevel, RenderFrom;
    assert s.stack[|s.stack| - 1] == v && s.stack[..|s.stack| - 1] == st.stack;
    var t := Step(p.env, p.root, bc, s);
    OneStep(p, s);
    OpenLevelIs(bc, p.Data(st), v);
    if t.status.Failed? {
      FailsNext(p, st, s);
      ThrowsNow(p, st, last + 1);
      if (if bc.value.String? then v.Object? else v.Array?) && WithParent(p.Data(st)).Some? {
        RenderFromUnfolds(p, Iterate(bc.value, bc.str, v), WithParent(p.Data(st)).value, 0, body);
      }
    } else {
      Chain(p, st, s, t);
      var it, base := Iterate(bc.value, bc.str, v), WithParent(p.Data(st)).value;
      IterationsRun(p, it, base, 0, body, t, st.loops, it.Bind(base, 0).value, first, last);
      LoopEnters(p, st, t, st.loops, last + 1, RenderFrom(p, it, base, 0, body));
    }
  }

  // ----- The whole template -----

  /**
   * Running the code of a template in which no `default` is left without an operand prints the meaning of what the
   * template actually does, halts, throws exactly when that meaning throws, and otherwise leaves both stacks empty.
   */
  lemma CodeDoesActual(env: Env, root: Json, b: Body) returns (steps: nat)
    requires SoundBody(env.pointerNotation, b)
    ensures var code := BodyCode(env.pointerNotation, b, 0);
            var final := Run(env, root, code, Start, steps);
            var meaning := Render(env, root, root, ActualBody(env.pointerNotation, b));
            && Halted(code, final)
            && final.out == meaning.text
            && final.status == (if meaning.ok then Running else Failed)
            && (meaning.ok ==> final.stack == [] && final.loops == [])
  {
    hide Step, Run, BodyCode, BodySize, Render, SoundBody, ActualBody;
    var code := BodyCode(env.pointerNotation, b, 0);
    var p := Program(env, root, code);
    assert code[0..|code|] == code;
    BodyRuns(p, b, Start);
    var meaning := Render(env, root, root, ActualBody(env.pointerNotation, b));
    assert "" + meaning.text == meaning.text;
    if meaning.ok {
      steps :| Run(env, root, code, Start, steps) == Start.(pc := |code|, out := meaning.text);
    } else {
      var t :| Reaches(p, Start, t) && t.status.Failed? && t.out == meaning.text;
      steps :| Run(env, root, code, Start, steps) == t;
    }
  }

  /**
   * Running a compiled template that fits prints what the template means, halts, throws exactly when the
   * template's meaning throws, and otherwise leaves both stacks empty.
   */
  lemma CompiledMeansTemplate(env: Env, root: Json, b: Body) returns (steps: nat)
    requires FitsBody(env.pointerNotation, b)
    ensures var code := BodyCode(env.pointerNotation, b, 0);
            var final := Run(env, root, code, Start, steps);
            var meaning := Render(env, root, root, b);
            && Halted(code, final)
            && final.out == meaning.text
            && final.status == (if meaning.ok then Running else Failed)
            && (meaning.ok ==> final.stack == [] && final.loops == [])
  {
    hide Run, BodyCode, Render, FitsBody, SoundBody, ActualBody;
    FitsSoundBody(env.pointerNotation, b);
    steps := CodeDoesActual(env, root, b);
  }
}
