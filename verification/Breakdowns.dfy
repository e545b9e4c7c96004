/** What the compiled code does where the one-pass scheme goes wrong. */
module Breakdowns {
  import opened Options
  import opened Json
  import opened Bytecodes
  import opened Templates
  import opened Compiler
  import opened Machine
  import opened Swaps
  import opened Discipline
  import opened ExpressionParsing
  import opened Printer
  import Tokens
  import ParserSpec
  import ParserCorrectness
  import opened Correctness

  // ----- Outcomes of a program -----

  /** The run stops with an exception or in undefined behaviour, so it never reaches the end. */
  ghost predicate Breaks(env: Env, root: Json, code: Code) {
    exists n: nat :: !Run(env, root, code, Start, n).status.Running?
  }

  ghost predicate StopsWith(env: Env, root: Json, code: Code, status: Status) {
    exists n: nat :: Run(env, root, code, Start, n).status == status
  }

  /** The run reaches the end of the code with `text` printed. */
  ghost predicate Renders(env: Env, root: Json, code: Code, text: string) {
    exists n: nat :: Finished(code, Run(env, root, code, Start, n), text)
  }

  predicate Finished(code: Code, st: State, text: string) {
    st.status.Running? && st.pc >= |code| && st.out == text
  }

  lemma {:induction false} HaltedStays(env: Env, root: Json, code: Code, st: State, n: nat)
    requires Halted(code, st)
    ensures Run(env, root, code, st, n) == st
  {
  }

  lemma BrokenDoesNotRender(env: Env, root: Json, code: Code, text: string)
    requires Breaks(env, root, code)
    ensures !Renders(env, root, code, text)
  {
    hide Run;
    var m: nat :| !Run(env, root, code, Start, m).status.Running?;
    forall n: nat ensures !Finished(code, Run(env, root, code, Start, n), text) {
      OneEnd(env, root, code, m, n);
    }
  }

  lemma OneEnd(env: Env, root: Json, code: Code, m: nat, n: nat)
    requires Halted(code, Run(env, root, code, Start, m))
    ensures Halted(code, Run(env, root, code, Start, n)) ==>
              Run(env, root, code, Start, n) == Run(env, root, code, Start, m)
  {
    hide Run;
    if m <= n {
      RunSplits(env, root, code, Start, m, n - m);
      HaltedStays(env, root, code, Run(env, root, code, Start, m), n - m);
    } else if Halted(code, Run(env, root, code, Start, n)) {
      RunSplits(env, root, code, Start, n, m - n);
      HaltedStays(env, root, code, Run(env, root, code, Start, n), m - n);
    }
  }

  // ----- Instructions that cannot be carried out -----

  /** A call that is to take its only argument from the instruction but has none, and a `default` without the instruction's value. */
  predicate Broken(bc: Bytecode) {
    (bc.op.Callback? && bc.args == 0 && !bc.flag.Pop?) || (bc.op.Default? && bc.flag.Pop?)
  }

  ghost predicate HasBroken(code: Code) {
    exists k :: 0 <= k < |code| && Broken(code[k])
  }

  lemma BrokenJams(env: Env, root: Json, bc: Bytecode, st: State)
    requires Broken(bc) && st.status.Running?
    ensures Step(env, root, bc, st) == Fault(st, bc.op.Callback? && !env.has(bc.str, 0))
  {
  }

  /** `t` is the step from `s` if that goes on: to the next instruction, in the same loops. */
  predicate GoesOn(s: State, t: State) {
    t.status.Running? ==> t.pc == s.pc + 1 && t.loops == s.loops
  }

  lemma StraightStep(env: Env, root: Json, bc: Bytecode, st: State)
    requires !Jumps(bc.op) && st.status.Running?
    ensures GoesOn(st, Step(env, root, bc, st))
  {
    hide Take, Apply, Resolve, CallStep, PrintStep, OperandStep, ControlStep, Shown;
    CallGoesOn(env, root, bc, st);
    OthersGoOn(env, root, bc, st);
  }

  lemma CallGoesOn(env: Env, root: Json, bc: Bytecode, st: State)
    requires st.status.Running?
    ensures GoesOn(st, CallStep(env, root, bc, st))
  {
    hide Take, Apply;
  }

  lemma OthersGoOn(env: Env, root: Json, bc: Bytecode, st: State)
    requires st.status.Running?
    ensures GoesOn(st, PrintStep(env, root, bc, st)) && GoesOn(st, OperandStep(env, root, bc, st))
  {
    hide Take, GetImm;
  }

  /** Code without jumps gets to each of its instructions, unless it breaks before. */
  lemma {:induction false} StraightPasses(env: Env, root: Json, code: Code, k: nat) returns (n: nat)
    requires Straight(code) && k <= |code|
    ensures var st := Run(env, root, code, Start, n); !st.status.Running? || st.pc == k
  {
    hide Step, Run;
    n := 0;
    assert Run(env, root, code, Start, 0) == Start by { RunNone(env, root, code, Start); }
    if k > 0 {
      n := StraightPasses(env, root, code, k - 1);
      var st := Run(env, root, code, Start, n);
      if st.status.Running? {
        StraightStep(env, root, code[st.pc], st);
        RunOne(env, root, code, st);
        RunSplits(env, root, code, Start, n, 1);
        n := n + 1;
      }
    }
  }

  lemma RunNone(env: Env, root: Json, code: Code, st: State)
    ensures Run(env, root, code, st, 0) == st
  {
  }

  lemma RunOne(env: Env, root: Json, code: Code, st: State)
    requires !Halted(code, st)
    ensures Run(env, root, code, st, 1) == Step(env, root, code[st.pc], st)
  {
    hide Step;
    assert Run(env, root, code, Step(env, root, code[st.pc], st), 0) == Step(env, root, code[st.pc], st);
  }

  lemma BrokenBreaks(env: Env, root: Json, code: Code)
    requires Straight(code) && HasBroken(code)
    ensures Breaks(env, root, code)
  {
    hide Step, Run, Broken;
    var k :| 0 <= k < |code| && Broken(code[k]);
    var n := StraightPasses(env, root, code, k);
    var st := Run(env, root, code, Start, n);
    if st.status.Running? {
      BrokenJams(env, root, code[k], st);
      RunOne(env, root, code, st);
      RunSplits(env, root, code, Start, n, 1);
      assert !Run(env, root, code, Start, n + 1).status.Running?;
    }
  }

  // ----- A template that prints one expression -----

  function PrintTokens(e: Expr): seq<Tokens.Token>
    requires Printable(e)
  {
    [Tokens.ExpressionOpen] + PrintExpr(e, 0) + [Tokens.ExpressionClose]
  }

  /** What the parser makes of it: code, or undefined behaviour. */
  lemma PrintTemplateParses(pointer: bool, e: Expr)
    requires Printable(e)
    ensures ParserSpec.ParseInto(pointer, ParserSpec.PState(PrintTokens(e), [], [], [])) ==
            match ExprOnto(pointer, [], e)
            case None => ParserSpec.Crashes
            case Some(code) => ParserSpec.Accept(ParserSpec.PState([], AppendFunction(code, PrintValue, 1), [], []))
  {
    hide ExprOnto, PrintExpr, Printable, ParserSpec.ParseItem, AppendFunction, Emits;
    var s := ParserSpec.PState(PrintTokens(e), [], [], []);
    var close := [Tokens.ExpressionClose] + [];
    assert s.rest == [Tokens.ExpressionOpen] + PrintExpr(e, 0) + [Tokens.ExpressionClose] + [];
    ParsesExpr(pointer, e, 0, close, []);
    ParserCorrectness.PrintItem(pointer, PrintExpr(e, 0), [], s, ExprOnto(pointer, [], e));
  }

  lemma {:induction false} OntoStraight(pointer: bool, before: Code, e: Expr)
    requires Straight(before) && Printable(e)
    ensures ExprOnto(pointer, before, e).Some? ==> Straight(ExprOnto(pointer, before, e).value)
    decreases e, 1
  {
    hide AppendFunction, AppendCallback, SwapLastTwo, ArgsOnto, Straight;
    if Leaf(e) {
      LeafOntoStraight(pointer, before, e);
    } else {
      ArgsStayStraight(pointer, before, e.args, 0);
      var code := ArgsOnto(pointer, before, e.args, 0);
      if code.Some? {
        if e.Invoke? {
          CallbackStaysStraight(code.value, e.name, |e.args|);
        } else {
          if e.op.Default? && |code.value| >= 2 { SwapStaysStraight(code.value); }
          var swapped := if e.op.Default? && |code.value| >= 2 then SwapLastTwo(code.value) else code.value;
          AppendStaysStraight(swapped, e.op, |e.args|);
        }
      }
    }
  }

  lemma LeafOntoStraight(pointer: bool, before: Code, e: Expr)
    requires Straight(before) && Leaf(e)
    ensures ExprOnto(pointer, before, e).Some? && Straight(ExprOnto(pointer, before, e).value)
  {
  }

  lemma {:induction false} ArgsStayStraight(pointer: bool, before: Code, args: seq<Expr>, i: nat)
    requires i <= |args| && Straight(before) && forall a :: a in args ==> Printable(a)
    ensures ArgsOnto(pointer, before, args, i).Some? ==> Straight(ArgsOnto(pointer, before, args, i).value)
    decreases args, |args| - i
  {
    hide ExprOnto, Straight;
    if i < |args| {
      OntoStraight(pointer, before, args[i]);
      var code := ExprOnto(pointer, before, args[i]);
      if code.Some? { ArgsStayStraight(pointer, code.value, args, i + 1); }
    }
  }

  // ----- Calls without arguments behind a literal -----

  lemma AppendKeepsBroken(code: Code, op: Op, name: string, n: nat)
    requires HasBroken(code)
    ensures HasBroken(AppendFunction(code, op, n)) && HasBroken(AppendCallback(code, name, n))
  {
    var k :| 0 <= k < |code| && Broken(code[k]);
    assert AppendFunction(code, op, n)[k] == code[k] && AppendCallback(code, name, n)[k] == code[k];
  }

  lemma SwapKeepsBroken(code: Code)
    requires HasBroken(code) && |code| >= 2
    ensures HasBroken(SwapLastTwo(code))
  {
    var k :| 0 <= k < |code| && Broken(code[k]);
    var swapped := SwapLastTwo(code);
    assert swapped[if k == |code| - 1 then k - 1 else if k == |code| - 2 then k + 1 else k] == code[k];
  }

  /** What is broken stays broken, however much is compiled behind it. */
  lemma {:induction false} OntoKeepsBroken(pointer: bool, before: Code, e: Expr)
    requires HasBroken(before)
    ensures ExprOnto(pointer, before, e).Some? ==> HasBroken(ExprOnto(pointer, before, e).value)
    decreases e, 1
  {
    hide AppendFunction, AppendCallback, SwapLastTwo, ArgsOnto, HasBroken;
    if Leaf(e) {
      LeafKeepsBroken(pointer, before, e);
    } else {
      ArgsKeepBroken(pointer, before, e.args, 0);
      FinishKeepsBroken(pointer, before, e);
    }
  }

  lemma LeafKeepsBroken(pointer: bool, before: Code, e: Expr)
    requires HasBroken(before) && Leaf(e)
    ensures ExprOnto(pointer, before, e).Some? && HasBroken(ExprOnto(pointer, before, e).value)
  {
    var k :| 0 <= k < |before| && Broken(before[k]);
    assert ExprOnto(pointer, before, e).value[k] == before[k];
  }

  lemma FinishKeepsBroken(pointer: bool, before: Code, e: Expr)
    requires !Leaf(e)
    requires var args := ArgsOnto(pointer, before, e.args, 0); args.Some? ==> HasBroken(args.value)
    ensures ExprOnto(pointer, before, e).Some? ==> HasBroken(ExprOnto(pointer, before, e).value)
  {
    hide AppendFunction, AppendCallback, SwapLastTwo, ArgsOnto, HasBroken;
    var args := ArgsOnto(pointer, before, e.args, 0);
    if args.Some? {
      if e.Invoke? {
        AppendKeepsBroken(args.value, Nop, e.name, |e.args|);
      } else if !e.op.Default? {
        AppendKeepsBroken(args.value, e.op, "", |e.args|);
      } else if |args.value| >= 2 {
        SwapKeepsBroken(args.value);
        AppendKeepsBroken(SwapLastTwo(args.value), e.op, "", |e.args|);
      }
    }
  }

  lemma {:induction false} ArgsKeepBroken(pointer: bool, before: Code, args: seq<Expr>, i: nat)
    requires i <= |args| && HasBroken(before)
    ensures ArgsOnto(pointer, before, args, i).Some? ==> HasBroken(ArgsOnto(pointer, before, args, i).value)
    decreases args, |args| - i
  {
    hide ExprOnto, HasBroken;
    if i < |args| {
      OntoKeepsBroken(pointer, before, args[i]);
      var code := ExprOnto(pointer, before, args[i]);
      if code.Some? { ArgsKeepBroken(pointer, code.value, args, i + 1); }
    }
  }

  /** A call without arguments swallows the literal before it. */
  lemma {:induction false} NullarySwallows(pointer: bool, before: Code, e: Expr)
    requires EndsWithLiteral(before) && StartsWithNullaryCall(e)
    ensures ExprOnto(pointer, before, e).Some? ==> HasBroken(ExprOnto(pointer, before, e).value)
    decreases e
  {
    hide HasBroken, AppendFunction, SwapLastTwo;
    if e.Invoke? && e.args == [] {
      Swallowed(pointer, before, e.name);
    } else {
      NullarySwallows(pointer, before, e.args[0]);
      var code := ExprOnto(pointer, before, e.args[0]);
      if code.Some? { ArgsKeepBroken(pointer, code.value, e.args, 1); }
      hide ExprOnto;
      ArgsOntoNext(pointer, before, e.args, 0);
      FinishKeepsBroken(pointer, before, e);
    }
  }

  lemma Swallowed(pointer: bool, before: Code, name: string)
    requires EndsWithLiteral(before)
    ensures ExprOnto(pointer, before, Invoke(name, [])) == Some(AppendCallback(before, name, 0))
    ensures |AppendCallback(before, name, 0)| == |before| && Broken(AppendCallback(before, name, 0)[|before| - 1])
    ensures HasBroken(AppendCallback(before, name, 0))
  {
    assert ArgsOnto(pointer, before, [], 0) == Some(before);
  }

  lemma LiteralOnto(pointer: bool, before: Code, e: Expr)
    requires e.Literal?
    ensures ExprOnto(pointer, before, e).Some? && EndsWithLiteral(ExprOnto(pointer, before, e).value)
  {
  }

  lemma {:induction false} NotCompiledIsBroken(pointer: bool, before: Code, e: Expr)
    requires Printable(e) && !Compiles(e)
    ensures ExprOnto(pointer, before, e).Some? ==> HasBroken(ExprOnto(pointer, before, e).value)
    decreases e, 1
  {
    hide HasBroken, ArgsOnto, AppendFunction, AppendCallback, SwapLastTwo, NoLiteralBeforeNullary;
    var i := FirstFault(e.args);
    ArgsNotCompiled(pointer, before, e.args, 0, i);
    FinishKeepsBroken(pointer, before, e);
  }

  /** Where the fault is: inside argument `i`, or between it and the literal before it. */
  predicate FaultAt(args: seq<Expr>, i: nat)
    requires i < |args|
  {
    !Compiles(args[i]) || (i > 0 && args[i - 1].Literal? && StartsWithNullaryCall(args[i]))
  }

  lemma FirstFault(args: seq<Expr>) returns (i: nat)
    requires !NoLiteralBeforeNullary(args) || exists a :: a in args && !Compiles(a)
    ensures i < |args| && FaultAt(args, i)
  {
    hide Compiles, StartsWithNullaryCall;
    if !NoLiteralBeforeNullary(args) {
      i :| 0 < i < |args| && args[i - 1].Literal? && StartsWithNullaryCall(args[i]);
    } else {
      var a :| a in args && !Compiles(a);
      i :| 0 <= i < |args| && args[i] == a;
    }
  }

  lemma {:induction false} ArgsNotCompiled(pointer: bool, before: Code, args: seq<Expr>, j: nat, i: nat)
    requires j <= i < |args| && FaultAt(args, i) && forall a :: a in args ==> Printable(a)
    requires j == i > 0 && args[i - 1].Literal? ==> EndsWithLiteral(before)
    ensures ArgsOnto(pointer, before, args, j).Some? ==> HasBroken(ArgsOnto(pointer, before, args, j).value)
    decreases args, |args| - j
  {
    hide ExprOnto, HasBroken, Compiles, StartsWithNullaryCall, EndsWithLiteral;
    var code := ExprOnto(pointer, before, args[j]);
    if j == i {
      if !Compiles(args[i]) { NotCompiledIsBroken(pointer, before, args[i]); } else { NullarySwallows(pointer, before, args[i]); }
      if code.Some? { ArgsKeepBroken(pointer, code.value, args, j + 1); }
    } else if code.Some? {
      if args[j].Literal? { LiteralOnto(pointer, before, args[j]); }
      ArgsNotCompiled(pointer, code.value, args, j + 1, i);
    }
  }

  /**
   * An expression the grammar can write does not compile only where a literal argument precedes one that begins with a
   * call without arguments. For every such expression parsing is undefined, or the code breaks on all data.
   */
  lemma NullaryBreaks(env: Env, root: Json, e: Expr)
    requires Printable(e) && !Compiles(e)
    ensures var o := ParserSpec.ParseInto(env.pointerNotation, ParserSpec.PState(PrintTokens(e), [], [], []));
            o.Crashes? || (o.Accept? && Breaks(env, root, o.s.code))
  {
    hide *;
    PrintTemplateParses(env.pointerNotation, e);
    var code := ExprOnto(env.pointerNotation, [], e);
    if code.Some? {
      NotCompiledIsBroken(env.pointerNotation, [], e);
      AppendKeepsBroken(code.value, PrintValue, "", 1);
      NothingStraight();
      OntoStraight(env.pointerNotation, [], e);
      PrintStaysStraight(code.value);
      BrokenBreaks(env, root, AppendFunction(code.value, PrintValue, 1));
    }
  }

  lemma PrintStaysStraight(code: Code)
    requires Straight(code)
    ensures Straight(AppendFunction(code, PrintValue, 1))
  {
    AppendStaysStraight(code, PrintValue, 1);
  }

  /** The call without arguments that `e` begins with is not the first argument of a `default`. */
  predicate StartsPlainly(e: Expr) {
    match e
    case Literal(_) => false
    case Lookup(_) => false
    case Operation(op, args) => args != [] && !op.Default? && StartsPlainly(args[0])
    case Invoke(_, args) => args == [] || StartsPlainly(args[0])
  }

  /** The names of the calls without arguments in `e`. */
  function NullaryNames(e: Expr): set<string> {
    match e
    case Literal(_) => {}
    case Lookup(_) => {}
    case Operation(_, args) => set a, n | a in args && n in NullaryNames(a) :: n
    case Invoke(name, args) => if args == [] then {name} else set a, n | a in args && n in NullaryNames(a) :: n
  }

  lemma NamesOfArgs(e: Expr)
    requires !Leaf(e)
    ensures forall a :: a in e.args ==> NullaryNames(a) <= NullaryNames(e)
  {
  }

  /** A call without arguments, by one of these names, that was merged into a push. */
  predicate Swallows(names: set<string>, bc: Bytecode) {
    bc.op.Callback? && bc.args == 0 && !bc.flag.Pop? && bc.str in names
  }

  /** The broken instruction at `k` keeps its place, and what does not lengthen the code has broken its last instruction. */
  predicate Kept(names: set<string>, k: nat, before: Code, after: Code) {
    && k < |before| <= |after|
    && after[..k] == before[..k] && Swallows(names, after[k])
    && (|after| == |before| ==> after == before || (EndsWithLiteral(before) && Swallows(names, after[|after| - 1])))
  }

  lemma KeptFurther(names: set<string>, k: nat, a: Code, b: Code, c: Code)
    requires Kept(names, k, a, b) && Kept(names, k, b, c)
    ensures Kept(names, k, a, c)
  {
    hide Swallows;
  }

  lemma AppendKeeps(names: set<string>, k: nat, before: Code, code: Code, op: Op, n: nat)
    requires Kept(names, k, before, code) && code != before
    ensures Kept(names, k, before, AppendFunction(code, op, n)) && |AppendFunction(code, op, n)| > |before|
  {
  }

  lemma CallbackKeeps(names: set<string>, k: nat, before: Code, code: Code, name: string, n: nat)
    requires Kept(names, k, before, code) && (code == before ==> n == 0) && (n == 0 ==> name in names)
    ensures Kept(names, k, before, AppendCallback(code, name, n)) && AppendCallback(code, name, n) != before
  {
  }

  /** Compiling `e` behind a broken instruction leaves it where it is. */
  lemma {:induction false} OntoKeeps(pointer: bool, names: set<string>, k: nat, before: Code, e: Expr)
    requires Printable(e) && NullaryNames(e) <= names && k < |before| && Swallows(names, before[k])
    ensures ExprOnto(pointer, before, e).Some?
    ensures var after := ExprOnto(pointer, before, e).value; Kept(names, k, before, after) && after != before
    decreases e, 1
  {
    hide AppendFunction, AppendCallback, SwapLastTwo, ArgsOnto, Kept, Swallows;
    if Leaf(e) {
      LeafKeeps(pointer, names, k, before, e);
    } else {
      NamesOfArgs(e);
      ArgsKeep(pointer, names, k, before, e.args, 0);
      var code := ArgsOnto(pointer, before, e.args, 0).value;
      if e.Invoke? {
        CallbackKeeps(names, k, before, code, e.name, |e.args|);
      } else if !e.op.Default? {
        AppendKeeps(names, k, before, code, e.op, |e.args|);
      } else {
        DefaultKeeps(pointer, names, k, before, e);
      }
    }
  }

  lemma LeafKeeps(pointer: bool, names: set<string>, k: nat, before: Code, e: Expr)
    requires Leaf(e) && k < |before| && Swallows(names, before[k])
    ensures ExprOnto(pointer, before, e).Some?
    ensures var after := ExprOnto(pointer, before, e).value; Kept(names, k, before, after) && after != before
  {
  }

  lemma {:induction false} ArgsKeep(pointer: bool, names: set<string>, k: nat, before: Code, args: seq<Expr>, i: nat)
    requires i <= |args| && k < |before| && Swallows(names, before[k])
    requires forall a :: a in args ==> Printable(a) && NullaryNames(a) <= names
    ensures ArgsOnto(pointer, before, args, i).Some?
    ensures var after := ArgsOnto(pointer, before, args, i).value;
            Kept(names, k, before, after) && (i < |args| <==> after != before)
    decreases args, |args| - i
  {
    hide ExprOnto, Swallows, NullaryNames;
    if i < |args| {
      OntoKeeps(pointer, names, k, before, args[i]);
      var code := ExprOnto(pointer, before, args[i]).value;
      ArgsKeep(pointer, names, k, code, args, i + 1);
      var after := ArgsOnto(pointer, code, args, i + 1).value;
      KeptFurther(names, k, before, code, after);
      if after == before { SameLengthSame(names, k, before, code, after); }
    }
  }

  /** Code that has changed does not change back. */
  lemma SameLengthSame(names: set<string>, k: nat, a: Code, b: Code, c: Code)
    requires Kept(names, k, a, b) && Kept(names, k, b, c) && b != a
    ensures c != a
  {
    if |b| == |a| {
      assert Swallows(names, b[|b| - 1]) && a[|a| - 1].op.Push?;
      assert |c| == |b| ==> c == b;
    }
  }

  lemma {:induction false} DefaultKeeps(pointer: bool, names: set<string>, k: nat, before: Code, e: Expr)
    requires Printable(e) && e.Operation? && e.op.Default? && k < |before| && Swallows(names, before[k])
    requires NullaryNames(e) <= names
    ensures ExprOnto(pointer, before, e).Some?
    ensures var after := ExprOnto(pointer, before, e).value; Kept(names, k, before, after) && after != before
    decreases e, 0
  {
    hide AppendFunction, Swallows;
    var a, b := e.args[0], e.args[1];
    assert a in e.args && b in e.args;
    NamesOfArgs(e);
    OntoKeeps(pointer, names, k, before, a);
    var ca := ExprOnto(pointer, before, a).value;
    OntoKeeps(pointer, names, k, ca, b);
    var cb := ExprOnto(pointer, ca, b).value;
    hide ExprOnto, ArgsOnto, SwapLastTwo;
    TwoArgsOnto(pointer, before, e, ca, cb);
    SwapKeeps(names, k, before, ca, cb);
    SwapKept(names, k, before, SwapLastTwo(cb), |e.args|);
  }

  lemma TwoArgsOnto(pointer: bool, before: Code, e: Expr, ca: Code, cb: Code)
    requires e.Operation? && e.op.Default? && |e.args| == 2
    requires ExprOnto(pointer, before, e.args[0]) == Some(ca) && ExprOnto(pointer, ca, e.args[1]) == Some(cb)
    ensures ExprOnto(pointer, before, e) ==
            if |cb| < 2 then None else Some(AppendFunction(SwapLastTwo(cb), Default, 2))
  {
    hide AppendFunction, SwapLastTwo;
    assert ArgsOnto(pointer, cb, e.args, 2) == Some(cb);
    assert ArgsOnto(pointer, ca, e.args, 1) == Some(cb);
    assert ArgsOnto(pointer, before, e.args, 0) == Some(cb);
  }

  lemma SwapKeeps(names: set<string>, k: nat, before: Code, ca: Code, cb: Code)
    requires Kept(names, k, before, ca) && ca != before && Kept(names, k, ca, cb) && cb != ca && Swallows(names, before[k])
    ensures |cb| >= 2 && |cb| > |before|
    ensures var swapped := SwapLastTwo(cb); swapped[..k] == before[..k] && Swallows(names, swapped[k]) && |swapped| == |cb|
  {
    assert |ca| == |before| ==> !EndsWithLiteral(ca);
    assert |before| == k + 1 ==> !EndsWithLiteral(before);
  }

  lemma SwapKept(names: set<string>, k: nat, before: Code, code: Code, n: nat)
    requires k < |before| < |code| && code[..k] == before[..k] && Swallows(names, code[k])
    ensures Kept(names, k, before, AppendFunction(code, Default, n)) && |AppendFunction(code, Default, n)| > |before|
  {
  }

  /** The swallowed literal's place is that of the broken call. */
  lemma {:induction false} PlainStartSwallows(pointer: bool, names: set<string>, before: Code, e: Expr)
    requires EndsWithLiteral(before) && StartsPlainly(e) && Printable(e) && NullaryNames(e) <= names
    ensures ExprOnto(pointer, before, e).Some?
    ensures var k, after := |before| - 1, ExprOnto(pointer, before, e).value;
            |after| >= |before| && after[..k] == before[..k] && Swallows(names, after[k])
    decreases e
  {
    hide AppendFunction, AppendCallback, SwapLastTwo, Swallows;
    var k := |before| - 1;
    if e.Invoke? && e.args == [] {
      Swallowed(pointer, before, e.name);
      FusedPrefix(names, before, e.name);
    } else {
      NamesOfArgs(e);
      PlainStartSwallows(pointer, names, before, e.args[0]);
      var code := ExprOnto(pointer, before, e.args[0]).value;
      ArgsKeep(pointer, names, k, code, e.args, 1);
      var all := ArgsOnto(pointer, code, e.args, 1).value;
      hide ExprOnto;
      ArgsOntoNext(pointer, before, e.args, 0);
      if |e.args| == 1 { assert ArgsOnto(pointer, before, e.args, 0) == Some(code); }
      FinishPlain(pointer, names, k, before, e, if |e.args| == 1 then code else all);
    }
  }

  lemma FusedPrefix(names: set<string>, before: Code, name: string)
    requires EndsWithLiteral(before) && name in names
    ensures var after := AppendCallback(before, name, 0);
            after[..|before| - 1] == before[..|before| - 1] && Swallows(names, after[|before| - 1])
  {
  }

  /** A finished call that is no `default` changes at most a push at the end. */
  lemma FinishPlain(pointer: bool, names: set<string>, k: nat, before: Code, e: Expr, args: Code)
    requires !Leaf(e) && (e.Operation? ==> !e.op.Default?) && ArgsOnto(pointer, before, e.args, 0) == Some(args)
    requires k < |args| && Swallows(names, args[k])
    ensures ExprOnto(pointer, before, e).Some?
    ensures var after := ExprOnto(pointer, before, e).value;
            |after| >= |args| && after[..k] == args[..k] && Swallows(names, after[k])
  {
    hide ArgsOnto;
  }

  lemma {:induction false} ArgsUpTo(pointer: bool, args: seq<Expr>, j: nat, m: nat)
    requires j <= m <= |args| && (forall a :: a in args[..m] ==> Compiles(a)) && NoLiteralBeforeNullary(args[..m])
    ensures ArgsOnto(pointer, ArgsCode(pointer, args[..j]), args, j) == ArgsOnto(pointer, ArgsCode(pointer, args[..m]), args, m)
    decreases m - j
  {
    hide ExprOnto, ExprCode, ArgsCode, Compiles, StartsWithNullaryCall, EndsWithLiteral, Separate;
    hide NoLiteralBeforeNullary;
    if j < m {
      var here := ArgsCode(pointer, args[..j]);
      assert args[..m][j] == args[j] && args[..m][..j] == args[..j];
      NotBehindAnything(args[..m]);
      SeparateAt(pointer, args[..m], j, []);
      assert [] + here == here;
      CompilesBehind(pointer, here, args[j]);
      ArgsExtend(pointer, args, j);
      ArgsUpTo(pointer, args, j + 1, m);
    }
  }

  lemma NotBehindAnything(args: seq<Expr>)
    requires args != []
    ensures Separate([], args[0])
  {
  }

  /**
   * Where the fault is in a call, and the arguments before it have values, the run of the parsed template gets to a call
   * without arguments that has swallowed the literal. It throws there when no such callback is registered, and otherwise
   * takes one argument too many from the stack.
   */
  lemma CallJams(env: Env, root: Json, e: Expr, i: nat)
    requires Printable(e) && !Leaf(e) && (e.Operation? ==> !e.op.Default?)
    requires 0 < i < |e.args| && e.args[i - 1].Literal? && StartsPlainly(e.args[i])
    requires NoLiteralBeforeNullary(e.args[..i]) && forall a :: a in e.args[..i] ==> Fits(env.pointerNotation, a)
    requires EvalAll(env, root, root, e.args[..i]).Some?
    ensures var o := ParserSpec.ParseInto(env.pointerNotation, ParserSpec.PState(PrintTokens(e), [], [], []));
            var k := |ArgsCode(env.pointerNotation, e.args[..i - 1])|;
            && o.Accept? && k < |o.s.code| && Swallows(NullaryNames(e), o.s.code[k])
            && StopsWith(env, root, o.s.code, if env.has(o.s.code[k].str, 0) then Stuck else Failed)
  {
    hide ExprOnto, ArgsOnto, ExprCode, ArgsCode, Fits, Printable, StartsPlainly, Swallows, NoLiteralBeforeNullary;
    hide EvalAll;
    hide AppendFunction, ParserSpec.ParseInto, StopsWith;
    var pointer := env.pointerNotation;
    var front := ArgsCode(pointer, e.args[..i - 1]);
    CallLayout(pointer, e, i);
    PrintTemplateParses(pointer, e);
    var code := AppendFunction(ExprOnto(pointer, [], e).value, PrintValue, 1);
    var vs := FrontValues(env, root, e.args, i);
    FrontRuns(env, root, NullaryNames(e), code, e.args[..i - 1], vs);
  }

  /** The arguments before the literal keep their code, and the broken call comes right behind it. */
  lemma CallLayout(pointer: bool, e: Expr, i: nat)
    requires Printable(e) && !Leaf(e) && (e.Operation? ==> !e.op.Default?)
    requires 0 < i < |e.args| && e.args[i - 1].Literal? && StartsPlainly(e.args[i])
    requires NoLiteralBeforeNullary(e.args[..i]) && forall a :: a in e.args[..i] ==> Fits(pointer, a)
    ensures ExprOnto(pointer, [], e).Some?
    ensures var code := AppendFunction(ExprOnto(pointer, [], e).value, PrintValue, 1);
            var k := |ArgsCode(pointer, e.args[..i - 1])|;
            && k < |code| && code[..k] == ArgsCode(pointer, e.args[..i - 1])
            && Swallows(NullaryNames(e), code[k])
  {
    hide ExprOnto, ArgsOnto, ExprCode, ArgsCode, StartsPlainly, Swallows, NoLiteralBeforeNullary, AppendFunction;
    hide Printable;
    var before, names := ArgsCode(pointer, e.args[..i]), NullaryNames(e);
    var k := |before| - 1;
    NamesOfArgs(e);
    LiteralLast(pointer, e.args, i);
    NoArgsCode(pointer);
    assert e.args[..0] == [];
    ArgsUpTo(pointer, e.args, 0, i) by { FitsAllCompile(pointer, e.args[..i]); }
    assert Printable(e.args[i]) by { PrintableArgs(e); }
    PlainStartSwallows(pointer, names, before, e.args[i]);
    var code := ExprOnto(pointer, before, e.args[i]).value;
    PrintableArgs(e);
    ArgsKeep(pointer, names, k, code, e.args, i + 1);
    ArgsOntoNext(pointer, before, e.args, i);
    NoneLeft(pointer, code, e.args);
    var all := ArgsOnto(pointer, code, e.args, i + 1).value;
    assert all[..k] == code[..k];
    FinishPlain(pointer, names, k, [], e, all);
    PrintKeeps(names, k, ExprOnto(pointer, [], e).value);
  }

  lemma NoneLeft(pointer: bool, code: Code, args: seq<Expr>)
    ensures ArgsOnto(pointer, code, args, |args|) == Some(code)
  {
  }

  lemma FitsAllCompile(pointer: bool, args: seq<Expr>)
    requires forall a :: a in args ==> Fits(pointer, a)
    ensures forall a :: a in args ==> Compiles(a)
  {
  }

  lemma PrintableArgs(e: Expr)
    requires Printable(e) && !Leaf(e)
    ensures forall a :: a in e.args ==> Printable(a)
  {
  }

  lemma LiteralLast(pointer: bool, args: seq<Expr>, i: nat)
    requires 0 < i <= |args| && args[i - 1].Literal?
    ensures var before := ArgsCode(pointer, args[..i]);
            && EndsWithLiteral(before)
            && before[..|before| - 1] == ArgsCode(pointer, args[..i - 1])
  {
    ArgsExtend(pointer, args, i - 1);
  }

  lemma PrintKeeps(names: set<string>, k: nat, code: Code)
    requires k < |code| && Swallows(names, code[k])
    ensures var after := AppendFunction(code, PrintValue, 1);
            k < |after| && after[..k] == code[..k] && Swallows(names, after[k])
  {
  }

  lemma FrontValues(env: Env, root: Json, args: seq<Expr>, i: nat) returns (vs: seq<Json>)
    requires 0 < i <= |args| && EvalAll(env, root, root, args[..i]).Some?
    ensures EvalAll(env, root, root, args[..i - 1]) == Some(vs)
  {
    hide Eval;
    assert args[..i][..i - 1] == args[..i - 1];
    vs := EvalAll(env, root, root, args[..i - 1]).value;
  }

  lemma {:induction false} FitsWorths(p: Program, data: Json, es: seq<Expr>)
    requires forall a :: a in es ==> Fits(p.Pointer(), a)
    ensures forall a :: a in es ==> Sound(p.Pointer(), a)
    ensures WorthAll(p, data, es) == EvalAll(p.env, p.root, data, es)
  {
    hide Fits, Sound, Actual, ActualArgs, EvalAll;
    forall i | 0 <= i < |es| ensures Sound(p.Pointer(), es[i]) && Actual(p.Pointer(), es[i]) == Some(es[i]) {
      FitsSound(p.Pointer(), es[i]);
    }
    ActualArgsEach(p.Pointer(), es);
    assert ActualArgs(p.Pointer(), es).value == es;
  }

  lemma SwallowsIsBroken(names: set<string>, bc: Bytecode)
    requires Swallows(names, bc)
    ensures Broken(bc) && bc.op.Callback?
  {
  }

  lemma FrontRuns(env: Env, root: Json, names: set<string>, code: Code, front: seq<Expr>, vs: seq<Json>)
    requires forall a :: a in front ==> Fits(env.pointerNotation, a)
    requires EvalAll(env, root, root, front) == Some(vs)
    requires var k := |ArgsCode(env.pointerNotation, front)|;
             k < |code| && code[..k] == ArgsCode(env.pointerNotation, front) && Swallows(names, code[k])
    ensures var name := code[|ArgsCode(env.pointerNotation, front)|].str;
            StopsWith(env, root, code, if env.has(name, 0) then Stuck else Failed)
  {
    hide Run, Step, Swallows, Broken, ArgsCode, Fits, EvalAll;
    var p := Program(env, root, code);
    var k := |ArgsCode(env.pointerNotation, front)|;
    assert code[0..0 + k] == code[..k];
    FitsWorths(p, root, front);
    ArgsRun(p, front, Start);
    var st := Start.(pc := k, stack := [] + vs);
    var n: nat :| Run(env, root, code, Start, n) == st;
    SwallowsIsBroken(names, code[k]);
    BrokenJams(env, root, code[k], st);
    RunOne(env, root, code, st);
    RunSplits(env, root, code, Start, n, 1);
    assert Run(env, root, code, Start, n + 1).status == if env.has(code[k].str, 0) then Stuck else Failed;
  }

  // ----- `default` -----

  /** An expression compiled to one instruction holds no `default`. */
  lemma {:induction false} OneInstructionFits(pointer: bool, b: Expr)
    requires Compiles(b) && |ExprCode(pointer, b)| == 1
    ensures CallsFit(pointer, b)
    decreases b
  {
    hide ExprCode, ArgsCode, NoLiteralBeforeNullary, DefaultFits;
    if !Leaf(b) {
      ArgsNoLonger(pointer, b);
      assert |b.args| <= 1;
      if b.args != [] {
        assert b.args == [b.args[0]];
        ArgsOfOne(pointer, b.args[0]);
        OneInstructionFits(pointer, b.args[0]);
      }
    }
  }

  lemma ArgsNoLonger(pointer: bool, e: Expr)
    requires !Leaf(e)
    ensures |ArgsCode(pointer, e.args)| <= |ExprCode(pointer, e)|
    ensures e.Operation? && e.op.Default? && |e.args| == 2 ==> |ExprCode(pointer, e)| >= 2
  {
    hide ArgsCode;
  }

  /**
   * `default(a, b)` where `a` has no value and `b` has one, for all expressions and data: the parsed template prints the
   * fallback if and only if `a` is a lookup and `b` compiles to one instruction. Otherwise its run breaks, and when `b`
   * takes more than one instruction it throws.
   */
  lemma FallbackExact(env: Env, root: Json, a: Expr, b: Expr)
    requires var e := Operation(Default, [a, b]); Printable(e) && Compiles(e) && Fits(env.pointerNotation, a)
    requires Eval(env, root, root, a).None? && Eval(env, root, root, b).Some?
    ensures var text := Shown(env, Eval(env, root, root, b).value);
            var o := ParserSpec.ParseInto(env.pointerNotation,
                       ParserSpec.PState(PrintTokens(Operation(Default, [a, b])), [], [], []));
            var n := |ExprCode(env.pointerNotation, b)|;
            && Render(env, root, root, Cons(Print(Operation(Default, [a, b])), Nil)) == Output(text, true)
            && o.Accept?
            && (Renders(env, root, o.s.code, text) <==> a.Lookup? && n == 1)
            && (!(a.Lookup? && n == 1) ==> Breaks(env, root, o.s.code))
            && (n >= 2 ==> StopsWith(env, root, o.s.code, Failed))
  {
    hide *;
    var pointer, e := env.pointerNotation, Operation(Default, [a, b]);
    var text := Shown(env, Eval(env, root, root, b).value);
    var code := PrintedCode(pointer, e);
    DefaultMeaning(env, root, a, b);
    CompiledParses(pointer, e);
    CodeNotEmpty(pointer, b);
    if |ExprCode(pointer, b)| >= 2 {
      LongFallbackThrows(env, root, a, b);
      BrokenDoesNotRender(env, root, code, text);
    } else if !Leaf(a) {
      PlainDefaultBreaks(env, root, a, b);
      BrokenDoesNotRender(env, root, code, text);
      LookupIsLeaf(a);
    } else {
      NoValueIsLookup(env, root, a);
      ShortFallbackRenders(env, root, a, b);
    }
  }

  function PrintedCode(pointer: bool, e: Expr): Code {
    AppendFunction(ExprCode(pointer, e), PrintValue, 1)
  }

  lemma CodeNotEmpty(pointer: bool, b: Expr)
    ensures |ExprCode(pointer, b)| >= 1
  {
  }

  lemma LookupIsLeaf(a: Expr)
    ensures a.Lookup? ==> Leaf(a)
  {
  }

  lemma NoValueIsLookup(env: Env, root: Json, a: Expr)
    requires Leaf(a) && Eval(env, root, root, a).None?
    ensures a.Lookup?
  {
  }

  lemma DefaultMeaning(env: Env, root: Json, a: Expr, b: Expr)
    requires Eval(env, root, root, a).None? && Eval(env, root, root, b).Some?
    ensures Render(env, root, root, Cons(Print(Operation(Default, [a, b])), Nil))
         == Output(Shown(env, Eval(env, root, root, b).value), true)
  {
    hide Shown;
    var e := Operation(Default, [a, b]);
    assert e.args[0] == a && e.args[1] == b;
    assert Eval(env, root, root, e) == Eval(env, root, root, b);
    hide Eval;
    var text := Shown(env, Eval(env, root, root, b).value);
    assert RenderNode(env, root, root, Print(e)) == Output(text, true);
    assert Render(env, root, root, Nil) == Output("", true);
    assert text + "" == text;
  }

  lemma CompiledParses(pointer: bool, e: Expr)
    requires Printable(e) && Compiles(e)
    ensures ParserSpec.ParseInto(pointer, ParserSpec.PState(PrintTokens(e), [], [], []))
         == ParserSpec.Accept(ParserSpec.PState([], PrintedCode(pointer, e), [], []))
  {
    hide Printable, Compiles, ExprCode, ExprOnto, StartsWithNullaryCall, PrintTokens, ParserSpec.ParseInto;
    hide AppendFunction;
    PrintTemplateParses(pointer, e);
    CompilesBehind(pointer, [], e);
    assert [] + ExprCode(pointer, e) == ExprCode(pointer, e);
  }

  /** With two instructions or more behind it the first argument's code is run as it stands. */
  lemma LongFallbackThrows(env: Env, root: Json, a: Expr, b: Expr)
    requires Fits(env.pointerNotation, a) && Eval(env, root, root, a).None? && |ExprCode(env.pointerNotation, b)| >= 2
    ensures var code := PrintedCode(env.pointerNotation, Operation(Default, [a, b]));
            StopsWith(env, root, code, Failed) && Breaks(env, root, code)
  {
    hide Run, Fits, Sound, Worth, Eval, ExprCode, AppendFunction, SwapLastTwo, Step;
    var pointer := env.pointerNotation;
    var ca, cb := ExprCode(pointer, a), ExprCode(pointer, b);
    var code := PrintedCode(pointer, Operation(Default, [a, b]));
    DefaultCode(pointer, a, b);
    FrontStays(ca, cb);
    var p := Program(env, root, code);
    assert p.Holds(0, ca) by { assert code[0..0 + |ca|] == code[..|ca|]; }
    FitsWorth(p, root, a);
    ExprRuns(p, a, Start);
    var t :| Reaches(p, Start, t) && t.status.Failed?;
    var n: nat :| Run(env, root, code, Start, n) == t;
  }

  lemma FrontStays(ca: Code, cb: Code)
    requires |cb| >= 2
    ensures var code := AppendFunction(AppendFunction(SwapLastTwo(ca + cb), Default, 2), PrintValue, 1);
            |code| >= |ca| && code[..|ca|] == ca
  {
    var swapped := SwapLastTwo(ca + cb);
    assert swapped[..|ca|] == ca;
    PrefixStays(|ca|, swapped, Default, 2);
    PrefixStays(|ca|, AppendFunction(swapped, Default, 2), PrintValue, 1);
  }

  lemma PrefixStays(k: nat, code: Code, op: Op, n: nat)
    requires k < |code|
    ensures |AppendFunction(code, op, n)| >= |code| && AppendFunction(code, op, n)[..k] == code[..k]
  {
  }

  /** A first argument that is no leaf and a one-instruction fallback: `default` gets no value of its own, on any data. */
  lemma PlainDefaultBreaks(env: Env, root: Json, a: Expr, b: Expr)
    requires !Leaf(a) && |ExprCode(env.pointerNotation, b)| == 1 && Compiles(Operation(Default, [a, b]))
    ensures Breaks(env, root, PrintedCode(env.pointerNotation, Operation(Default, [a, b])))
  {
    hide ExprCode, Compiles, Breaks, HasBroken, Straight, AppendFunction, SwapLastTwo;
    var pointer, e := env.pointerNotation, Operation(Default, [a, b]);
    var ca, cb := ExprCode(pointer, a), ExprCode(pointer, b);
    DefaultCode(pointer, a, b);
    NoLeafNoPush(pointer, a);
    OneMore(ca, cb);
    PlainDefault(ca + cb);
    ExprStraight(pointer, e);
    BrokenPrint(env, root, e);
  }

  lemma NoLeafNoPush(pointer: bool, a: Expr)
    requires !Leaf(a)
    ensures ExprCode(pointer, a) != [] && !ExprCode(pointer, a)[|ExprCode(pointer, a)| - 1].op.Push?
  {
  }

  /** No push right before the last instruction: the swap leaves `default` without one. */
  lemma PlainDefault(code: Code)
    requires |code| >= 2 && !code[|code| - 2].op.Push?
    ensures HasBroken(AppendFunction(SwapLastTwo(code), Default, 2))
  {
    var after := AppendFunction(SwapLastTwo(code), Default, 2);
    assert Broken(after[|after| - 1]);
  }

  lemma ShortFallbackRenders(env: Env, root: Json, a: Expr, b: Expr)
    requires Leaf(a) && |ExprCode(env.pointerNotation, b)| == 1 && Compiles(Operation(Default, [a, b]))
    requires Eval(env, root, root, a).None? && Eval(env, root, root, b).Some?
    ensures Renders(env, root, PrintedCode(env.pointerNotation, Operation(Default, [a, b])),
                    Shown(env, Eval(env, root, root, b).value))
  {
    hide ExprCode, Compiles, CallsFit, Renders, Shown;
    var e := Operation(Default, [a, b]);
    ShortFallbackFits(env.pointerNotation, a, b);
    assert e.args[0] == a && e.args[1] == b;
    assert Eval(env, root, root, e) == Eval(env, root, root, b);
    FittingRenders(env, root, e);
  }

  lemma ShortFallbackFits(pointer: bool, a: Expr, b: Expr)
    requires Leaf(a) && |ExprCode(pointer, b)| == 1 && Compiles(Operation(Default, [a, b]))
    ensures FitsBody(pointer, Cons(Print(Operation(Default, [a, b])), Nil))
  {
    hide ExprCode;
    var e := Operation(Default, [a, b]);
    assert e.args[0] == a && e.args[1] == b;
    assert Compiles(b) by { assert b in e.args; }
    OneInstructionFits(pointer, b);
    assert CallsFit(pointer, a) && DefaultFits(pointer, a, b);
    assert CallsFit(pointer, e);
    hide Compiles, CallsFit;
    assert FitsNode(pointer, Print(e)) && FitsBody(pointer, Nil);
  }

  /** An expression that fits is printed with its value. */
  lemma FittingRenders(env: Env, root: Json, e: Expr)
    requires Fits(env.pointerNotation, e) && Eval(env, root, root, e).Some?
    ensures Renders(env, root, PrintedCode(env.pointerNotation, e), Shown(env, Eval(env, root, root, e).value))
  {
    hide ExprCode, Eval, Fits, Sound, Shown, Renders;
    FitsSound(env.pointerNotation, e);
    SoundPrints(env, root, e);
  }

  // ----- What every compiling expression prints -----

  /** The code of a sound expression prints the value of what it actually does. */
  lemma SoundPrints(env: Env, root: Json, e: Expr)
    requires Sound(env.pointerNotation, e)
    ensures var code := PrintedCode(env.pointerNotation, e);
            match Eval(env, root, root, Actual(env.pointerNotation, e).value)
            case Some(v) => Renders(env, root, code, Shown(env, v))
            case None => StopsWith(env, root, code, Failed)
  {
    hide ExprCode, Run, Eval, Actual, Compiles, Counted, Shown, AppendFunction;
    var code := PrintedCode(env.pointerNotation, e);
    var p := Program(env, root, code);
    assert code[0..|code|] == code;
    PrintRuns(p, e, Start);
    var v := Eval(env, root, root, Actual(env.pointerNotation, e).value);
    if v.Some? {
      assert "" + Shown(env, v.value) == Shown(env, v.value);
      var n: nat :| Run(env, root, code, Start, n) == Start.(pc := |code|, out := Shown(env, v.value));
      assert Finished(code, Run(env, root, code, Start, n), Shown(env, v.value));
    } else {
      var t :| Reaches(p, Start, t) && t.status.Failed?;
      var n: nat :| Run(env, root, code, Start, n) == t;
    }
  }

  /** Where a `default` is left without an operand, its instruction is broken. */
  lemma {:induction false} NoOperandIsBroken(pointer: bool, e: Expr)
    requires Compiles(e) && Actual(pointer, e).None?
    ensures HasBroken(ExprCode(pointer, e))
    decreases e
  {
    hide HasBroken, Broken, ExprCode, ArgsCode, Actual, ActualArgs, NoLiteralBeforeNullary, Rotatable;
    LeafIsActual(pointer, e);
    if e.Operation? && e.op.Default? {
      var a, b := e.args[0], e.args[1];
      assert e == Operation(Default, [a, b]);
      if Actual(pointer, a).None? { NoOperandIsBroken(pointer, a); }
      if Actual(pointer, b).None? { NoOperandIsBroken(pointer, b); }
      BrokenDefault(pointer, a, b);
    } else {
      CompiledIsCall(e);
      CallActual(pointer, e);
      ActualArgsEach(pointer, e.args);
      var i :| 0 <= i < |e.args| && Actual(pointer, e.args[i]).None?;
      NoOperandIsBroken(pointer, e.args[i]);
      BrokenArgument(pointer, e.args, i);
      BrokenCall(pointer, e);
    }
  }

  lemma LeafIsActual(pointer: bool, e: Expr)
    ensures Leaf(e) ==> Actual(pointer, e).Some?
  {
  }

  lemma {:induction false} BrokenArgument(pointer: bool, es: seq<Expr>, i: nat)
    requires i < |es| && HasBroken(ExprCode(pointer, es[i]))
    ensures HasBroken(ArgsCode(pointer, es))
    decreases |es|
  {
    hide HasBroken, ExprCode, ArgsCode;
    var front := es[..|es| - 1];
    ArgsCodeIs(pointer, es);
    if i < |front| { BrokenArgument(pointer, front, i); }
    BrokenPart(ArgsCode(pointer, front), ExprCode(pointer, es[|es| - 1]));
  }

  lemma BrokenPart(a: Code, b: Code)
    requires HasBroken(a) || HasBroken(b)
    ensures HasBroken(a + b)
  {
    var code := a + b;
    if HasBroken(a) {
      var k :| 0 <= k < |a| && Broken(a[k]);
      assert code[k] == a[k];
    } else {
      var k :| 0 <= k < |b| && Broken(b[k]);
      assert code[|a| + k] == b[k];
    }
  }

  lemma BrokenCall(pointer: bool, e: Expr)
    requires IsCall(e) && HasBroken(ArgsCode(pointer, e.args))
    ensures HasBroken(ExprCode(pointer, e))
  {
    hide ArgsCode, HasBroken, AppendFunction, AppendCallback;
    var code := ArgsCode(pointer, e.args);
    if e.Invoke? {
      AppendKeepsBroken(code, Nop, e.name, |e.args|);
    } else {
      AppendKeepsBroken(code, e.op, "", |e.args|);
    }
  }

  lemma BrokenDefault(pointer: bool, a: Expr, b: Expr)
    requires Compiles(b) && Actual(pointer, Operation(Default, [a, b])).None?
    requires Actual(pointer, a).None? ==> HasBroken(ExprCode(pointer, a))
    requires Actual(pointer, b).None? ==> HasBroken(ExprCode(pointer, b))
    ensures HasBroken(ExprCode(pointer, Operation(Default, [a, b])))
  {
    hide HasBroken, Broken, ExprCode, ArgsCode, Actual, Compiles, Rotatable, AppendFunction, SwapLastTwo;
    var ca, cb := ExprCode(pointer, a), ExprCode(pointer, b);
    DefaultActual(pointer, a, b);
    DefaultCode(pointer, a, b);
    if HasBroken(ca) || HasBroken(cb) {
      BrokenPart(ca, cb);
      SwapKeepsBroken(ca + cb);
      AppendKeepsBroken(SwapLastTwo(ca + cb), Default, "", 2);
    } else if |cb| == 1 {
      NoLeafNoPush(pointer, a);
      OneMore(ca, cb);
      PlainDefault(ca + cb);
    } else {
      FirstLeaf(pointer, b);
      PenultimatePush(pointer, b);
      assert (ca + cb)[|ca + cb| - 2] == cb[|cb| - 2];
      PlainDefault(ca + cb);
    }
  }

  lemma OneMore(a: Code, b: Code)
    requires a != [] && |b| == 1
    ensures (a + b)[|a + b| - 2] == a[|a| - 1]
  {
  }

  /**
   * The template that prints one expression, for every expression that the grammar can write and that compiles: its run
   * prints the value of what the expression actually does, throws when that has no value, and breaks on all data when
   * some `default` is left without an operand.
   */
  lemma PrintsActual(env: Env, root: Json, e: Expr)
    requires Printable(e) && Compiles(e) && Counted(e)
    ensures var o := ParserSpec.ParseInto(env.pointerNotation, ParserSpec.PState(PrintTokens(e), [], [], []));
            o.Accept? &&
            match Actual(env.pointerNotation, e)
            case None => Breaks(env, root, o.s.code)
            case Some(actual) =>
              match Eval(env, root, root, actual)
              case Some(v) => Renders(env, root, o.s.code, Shown(env, v))
              case None => StopsWith(env, root, o.s.code, Failed)
  {
    hide *;
    var pointer := env.pointerNotation;
    CompiledParses(pointer, e);
    if Actual(pointer, e).None? {
      NoOperandIsBroken(pointer, e);
      ExprStraight(pointer, e);
      BrokenPrint(env, root, e);
    } else {
      SoundIs(pointer, e);
      SoundPrints(env, root, e);
    }
  }

  lemma SoundIs(pointer: bool, e: Expr)
    requires Compiles(e) && Counted(e) && Actual(pointer, e).Some?
    ensures Sound(pointer, e)
  {
  }

  lemma BrokenPrint(env: Env, root: Json, e: Expr)
    requires Straight(ExprCode(env.pointerNotation, e)) && HasBroken(ExprCode(env.pointerNotation, e))
    ensures Breaks(env, root, PrintedCode(env.pointerNotation, e))
  {
    hide ExprCode, HasBroken, Straight, AppendFunction, Breaks;
    PrintStaysStraight(ExprCode(env.pointerNotation, e));
    AppendKeepsBroken(ExprCode(env.pointerNotation, e), PrintValue, "", 1);
    BrokenBreaks(env, root, PrintedCode(env.pointerNotation, e));
  }

  lemma OneText(env: Env, root: Json, code: Code, text: string, other: string)
    requires Renders(env, root, code, text) && Renders(env, root, code, other)
    ensures text == other
  {
    hide Run;
    var m: nat :| Finished(code, Run(env, root, code, Start, m), text);
    var n: nat :| Finished(code, Run(env, root, code, Start, n), other);
    OneEnd(env, root, code, m, n);
  }

  lemma StoppedDoesNotRender(env: Env, root: Json, code: Code, text: string)
    requires StopsWith(env, root, code, Failed)
    ensures !Renders(env, root, code, text)
  {
    hide Run;
    var n: nat :| Run(env, root, code, Start, n).status == Failed;
    assert Breaks(env, root, code);
    BrokenDoesNotRender(env, root, code, text);
  }

  /** `v` is printed like the value that `e` has. */
  predicate ShowsLike(env: Env, root: Json, e: Expr, v: Json) {
    var w := Eval(env, root, root, e);
    w.Some? && Shown(env, w.value) == Shown(env, v)
  }

  /**
   * For every expression the grammar can write, and all data on which it has a value: the parsed template prints that
   * value if and only if the expression compiles, no `default` in it is left without an operand, and what its code does
   * instead gives the same.
   */
  lemma PrintExact(env: Env, root: Json, e: Expr)
    requires Printable(e) && Counted(e) && Eval(env, root, root, e).Some?
    ensures var o := ParserSpec.ParseInto(env.pointerNotation, ParserSpec.PState(PrintTokens(e), [], [], []));
            var v := Eval(env, root, root, e).value;
            var actual := Actual(env.pointerNotation, e);
            (o.Accept? && Renders(env, root, o.s.code, Shown(env, v)))
            <==> Compiles(e) && actual.Some? && ShowsLike(env, root, actual.value, v)
  {
    hide *;
    var v := Eval(env, root, root, e).value;
    var o := ParserSpec.ParseInto(env.pointerNotation, ParserSpec.PState(PrintTokens(e), [], [], []));
    if !Compiles(e) {
      NullaryBreaks(env, root, e);
      if o.Accept? { BrokenDoesNotRender(env, root, o.s.code, Shown(env, v)); }
    } else {
      PrintsActual(env, root, e);
      OneOutcome(env, root, o.s.code, Actual(env.pointerNotation, e), v);
    }
  }

  lemma OneOutcome(env: Env, root: Json, code: Code, actual: Option<Expr>, v: Json)
    requires match actual
             case None => Breaks(env, root, code)
             case Some(e) =>
               match Eval(env, root, root, e)
               case Some(w) => Renders(env, root, code, Shown(env, w))
               case None => StopsWith(env, root, code, Failed)
    ensures Renders(env, root, code, Shown(env, v)) <==> actual.Some? && ShowsLike(env, root, actual.value, v)
  {
    hide Eval, Renders, Breaks, StopsWith, Shown;
    if actual.None? {
      BrokenDoesNotRender(env, root, code, Shown(env, v));
    } else {
      var w := Eval(env, root, root, actual.value);
      if w.None? {
        StoppedDoesNotRender(env, root, code, Shown(env, v));
      } else if Renders(env, root, code, Shown(env, v)) {
        OneText(env, root, code, Shown(env, v), Shown(env, w.value));
      }
    }
  }

  /**
   * `default(a, b)` on two expressions that are right by themselves, where it has a value: a one-instruction fallback is
   * right exactly behind a leaf. Behind a longer one the run computes `default(y, f(a, ...))` with the last but one
   * argument `y` of the call `b = f(..., y, ...)`, if that is pushed last, and is right exactly when this gives the same.
   */
  lemma DefaultExact(env: Env, root: Json, a: Expr, b: Expr)
    requires Printable(Operation(Default, [a, b])) && Compiles(Operation(Default, [a, b]))
    requires Fits(env.pointerNotation, a) && Fits(env.pointerNotation, b)
    requires Eval(env, root, root, Operation(Default, [a, b])).Some?
    ensures var o := ParserSpec.ParseInto(env.pointerNotation,
                       ParserSpec.PState(PrintTokens(Operation(Default, [a, b])), [], [], []));
            var v := Eval(env, root, root, Operation(Default, [a, b])).value;
            && o.Accept?
            && (Renders(env, root, o.s.code, Shown(env, v)) <==>
                  if |ExprCode(env.pointerNotation, b)| == 1 then Leaf(a)
                  else Rotatable(b) && ShowsLike(env, root, Operation(Default, [Moved(b), Shifted(a, b)]), v))
  {
    hide *;
    var pointer, e := env.pointerNotation, Operation(Default, [a, b]);
    FitsSound(pointer, a);
    FitsSound(pointer, b);
    BothCounted(pointer, a, b);
    PrintExact(env, root, e);
    CompiledParses(pointer, e);
    DefaultActual(pointer, a, b);
    ShowsItself(env, root, e);
  }

  lemma BothCounted(pointer: bool, a: Expr, b: Expr)
    requires Sound(pointer, a) && Sound(pointer, b)
    ensures Counted(Operation(Default, [a, b]))
  {
    hide Compiles, Actual;
  }

  lemma ShowsItself(env: Env, root: Json, e: Expr)
    requires Eval(env, root, root, e).Some?
    ensures ShowsLike(env, root, e, Eval(env, root, root, e).value)
  {
    hide Eval;
  }

  function AtOf(y: string, k: Json): Expr {
    Operation(At, [Lookup(y), Literal(k)])
  }

  function DefaultAt(x: string, y: string, k: Json): Expr {
    Operation(Default, [Lookup(x), AtOf(y, k)])
  }

  /** `default(x, at(y, k))` on data that has both: it means the value of `x`, and prints that of `y`. */
  lemma WrongValue(env: Env, root: Json, x: string, y: string, k: Json, vx: Json, vy: Json)
    requires Printable(DefaultAt(x, y, k))
    requires Resolve(env, env.pointerNotation, root, x) == Some(vx) && Resolve(env, env.pointerNotation, root, y) == Some(vy)
    requires env.primitive(At, [vx, k]).Some? && env.primitive(At, [vy, k]).Some?
    ensures var o := ParserSpec.ParseInto(env.pointerNotation, ParserSpec.PState(PrintTokens(DefaultAt(x, y, k)), [], [], []));
            && Eval(env, root, root, DefaultAt(x, y, k)) == Some(vx)
            && o.Accept? && Renders(env, root, o.s.code, Shown(env, vy))
  {
    hide *;
    var pointer := env.pointerNotation;
    AtActual(pointer, x, y, k);
    PrintsActual(env, root, DefaultAt(x, y, k));
    DefaultAtMeans(env, root, x, y, k, vx, vy);
    DefaultAtMeans(env, root, y, x, k, vy, vx);
  }

  lemma AtActual(pointer: bool, x: string, y: string, k: Json)
    ensures Compiles(DefaultAt(x, y, k)) && Counted(DefaultAt(x, y, k))
    ensures Actual(pointer, DefaultAt(x, y, k)) == Some(DefaultAt(y, x, k))
  {
    hide *;
    AtParts(pointer, x, y, k);
    FitsSound(pointer, AtOf(y, k));
    DefaultActual(pointer, Lookup(x), AtOf(y, k));
  }

  lemma AtParts(pointer: bool, x: string, y: string, k: Json)
    ensures DefaultAt(x, y, k) == Operation(Default, [Lookup(x), AtOf(y, k)])
    ensures Compiles(DefaultAt(x, y, k)) && Counted(DefaultAt(x, y, k))
    ensures Fits(pointer, AtOf(y, k)) && |ExprCode(pointer, AtOf(y, k))| == 2
    ensures Rotatable(AtOf(y, k)) && Moved(AtOf(y, k)) == Lookup(y) && Shifted(Lookup(x), AtOf(y, k)) == AtOf(x, k)
    ensures DefaultAt(y, x, k) == Operation(Default, [Lookup(y), AtOf(x, k)])
    ensures Actual(pointer, Lookup(x)) == Some(Lookup(x))
  {
    hide ArgsCode, Actual, ActualArgs;
    AtFits(pointer, y, k);
    LeafActual(pointer, Lookup(x));
    hide Compiles, Counted, ExprCode;
    LeavesCompile(Lookup(x), AtOf(y, k));
  }

  lemma AtFits(pointer: bool, y: string, k: Json)
    ensures Fits(pointer, AtOf(y, k)) && Counted(AtOf(y, k)) && |ExprCode(pointer, AtOf(y, k))| == 2
  {
    hide ArgsCode;
    ArgsOfTwo(pointer, Lookup(y), Literal(k));
    assert Compiles(Lookup(y)) && Compiles(Literal(k)) && CallsFit(pointer, Lookup(y)) && CallsFit(pointer, Literal(k));
  }

  lemma LeavesCompile(a: Expr, b: Expr)
    requires a.Lookup? && Compiles(b) && Counted(b)
    ensures Compiles(Operation(Default, [a, b])) && Counted(Operation(Default, [a, b]))
  {
  }

  lemma DefaultAtMeans(env: Env, root: Json, x: string, y: string, k: Json, vx: Json, vy: Json)
    requires Resolve(env, env.pointerNotation, root, x) == Some(vx) && Resolve(env, env.pointerNotation, root, y) == Some(vy)
    requires env.primitive(At, [vy, k]).Some?
    ensures Eval(env, root, root, DefaultAt(x, y, k)) == Some(vx)
  {
    hide EvalAll, Resolve;
    var p, args := Program(env, root, []), [Lookup(y), Literal(k)];
    assert args[..1] == [Lookup(y)] && args[1] == Literal(k);
    TwoValues(env, root, Lookup(y), Literal(k), vy, k);
    DefaultEval(p, Lookup(x), AtOf(y, k), root);
  }

  lemma TwoValues(env: Env, root: Json, a: Expr, b: Expr, va: Json, vb: Json)
    requires Eval(env, root, root, a) == Some(va) && Eval(env, root, root, b) == Some(vb)
    ensures EvalAll(env, root, root, [a, b]) == Some([va, vb])
  {
    hide Eval;
    assert [a, b][..1] == [a] && [a, b][1] == b && [a][..0] == [] && [a][0] == a;
    assert EvalAll(env, root, root, []) == Some([]);
    assert [] + [va] == [va] && [va] + [vb] == [va, vb];
    assert EvalAll(env, root, root, [a]) == Some([va]);
  }

  // ----- Zero-argument calls, exactly -----

  /**
   * For every expression the grammar can write whose defaults fit and which has a value: the parsed template prints that
   * value if and only if the expression compiles.
   */
  lemma NullaryExact(env: Env, root: Json, e: Expr)
    requires Printable(e) && CallsFit(env.pointerNotation, e) && Eval(env, root, root, e).Some?
    ensures var o := ParserSpec.ParseInto(env.pointerNotation, ParserSpec.PState(PrintTokens(e), [], [], []));
            (o.Accept? && Renders(env, root, o.s.code, Shown(env, Eval(env, root, root, e).value))) <==> Compiles(e)
  {
    hide *;
    var o := ParserSpec.ParseInto(env.pointerNotation, ParserSpec.PState(PrintTokens(e), [], [], []));
    if Compiles(e) {
      CompiledParses(env.pointerNotation, e);
      FitsIs(env.pointerNotation, e);
      FittingRenders(env, root, e);
    } else {
      NullaryBreaks(env, root, e);
      if o.Accept? { BrokenDoesNotRender(env, root, o.s.code, Shown(env, Eval(env, root, root, e).value)); }
    }
  }

  lemma FitsIs(pointer: bool, e: Expr)
    requires Compiles(e) && CallsFit(pointer, e)
    ensures Fits(pointer, e)
  {
  }
}
