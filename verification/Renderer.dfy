/** The stack machine that runs compiled templates, one instruction at a time. */
module Machine {
  import opened Options
  import opened Json
  import opened Bytecodes

  /** One open loop: what it iterates over, how far it is, and the data its body sees. */
  datatype Level =
    | ItemLevel(item: string, items: seq<Json>, index: nat, data: Json)
    | EntryLevel(key: string, item: string, entries: seq<(string, Json)>, index: nat, data: Json)

  /** `Failed` is a thrown exception; `Stuck` is what C++ leaves undefined. */
  datatype Status = Running | Failed | Stuck

  datatype State = State(pc: nat, stack: seq<Json>, loops: seq<Level>, out: string, status: Status)

  /** The data lookups see: that of the innermost loop, or the root. */
  function Current(root: Json, loops: seq<Level>): Json {
    if loops == [] then root else loops[|loops| - 1].data
  }

  datatype Operand = Value(v: Json) | Throws | Undefined

  /** `get_imm` */
  function GetImm(env: Env, data: Json, bc: Bytecode): Operand {
    match bc.flag
    case Pop => Undefined
    case Immediate => Value(bc.value)
    case _ =>
      match Resolve(env, bc.flag.LookupPointer?, data, bc.str)
      case Some(v) => Value(v)
      case None => Throws
  }

  datatype Operands = Operands(args: seq<Json>, below: seq<Json>) | NoOperands(throws: bool)

  /** `get_args` together with the stack that `pop_args` leaves. */
  function Take(env: Env, data: Json, bc: Bytecode, stack: seq<Json>): Operands {
    var fromStack := if bc.flag.Pop? then bc.args else bc.args - 1;
    if fromStack < 0 || fromStack > |stack| then NoOperands(false)
    else
      var below, args := stack[..|stack| - fromStack], stack[|stack| - fromStack..];
      if bc.flag.Pop? then Operands(args, below)
      else match GetImm(env, data, bc)
        case Value(v) => Operands(args + [v], below)
        case Throws => NoOperands(true)
        case Undefined => NoOperands(false)
  }

  function Fault(st: State, throws: bool): State {
    st.(status := if throws then Failed else Stuck)
  }

  predicate IsControl(op: Op) {
    op.Jump? || op.ConditionalJump? || op.StartLoop? || op.EndLoop?
  }

  /** One turn of the renderer's dispatch loop. */
  function Step(env: Env, root: Json, bc: Bytecode, st: State): State {
    if bc.op.PrintText? then st.(pc := st.pc + 1, out := st.out + bc.str)
    else if bc.op.PrintValue? then PrintStep(env, root, bc, st)
    else if bc.op.Push? || bc.op.Default? then OperandStep(env, root, bc, st)
    else if IsControl(bc.op) then ControlStep(root, bc, st)
    else CallStep(env, root, bc, st)
  }

  function PrintStep(env: Env, root: Json, bc: Bytecode, st: State): State {
    match Take(env, Current(root, st.loops), bc, st.stack)
    case NoOperands(throws) => Fault(st, throws)
    case Operands(args, below) =>
      if args == [] then Fault(st, false)
      else st.(pc := st.pc + 1, stack := below, out := st.out + Shown(env, args[0]))
  }

  function OperandStep(env: Env, root: Json, bc: Bytecode, st: State): State {
    match GetImm(env, Current(root, st.loops), bc)
    case Value(v) =>
      if bc.op.Push? then st.(pc := st.pc + 1, stack := st.stack + [v])
      else if st.stack == [] then Fault(st, false)
      else st.(pc := st.pc + 1, stack := st.stack[|st.stack| - 1 := v])
    case Throws => if bc.op.Push? then Fault(st, true) else st.(pc := st.pc + 1)
    case Undefined => Fault(st, false)
  }

  function CallStep(env: Env, root: Json, bc: Bytecode, st: State): State {
    if bc.op.Nop? then st.(pc := st.pc + 1)
    else if bc.op.Result? then Fault(st, true)
    else if bc.op.Callback? && !env.has(bc.str, bc.args) then Fault(st, true)
    else match Take(env, Current(root, st.loops), bc, st.stack)
      case NoOperands(throws) => Fault(st, throws)
      case Operands(args, below) =>
        if bc.op.Callback? then
          match env.call(bc.str, args)
          case None => Fault(st, true)
          case Some(v) => st.(pc := st.pc + 1, stack := below + [v])
        else if |args| != Arity(bc.op) || args == [] then Fault(st, false)
        else
          match Apply(env, root, bc.op, args)
          case None => Fault(st, true)
          case Some(v) => st.(pc := st.pc + 1, stack := below + [v])
  }

  function ControlStep(root: Json, bc: Bytecode, st: State): State {
    if bc.op.Jump? then st.(pc := bc.args)
    else if bc.op.EndLoop? then
      if st.loops == [] then Fault(st, true)
      else
        var level := st.loops[|st.loops| - 1];
        var outer := st.loops[..|st.loops| - 1];
        var next := level.(index := level.index + 1);
        if Done(next) then st.(pc := st.pc + 1, loops := outer)
        else match Update(next)
          case None => Fault(st, true)
          case Some(updated) => st.(pc := bc.args, loops := outer + [updated])
    else if st.stack == [] then Fault(st, false)
    else
      var top := st.stack[|st.stack| - 1];
      var below := st.stack[..|st.stack| - 1];
      if bc.op.ConditionalJump? then
        match Truthy(top)
        case None => Fault(st, true)
        case Some(t) => st.(pc := if t then st.pc + 1 else bc.args, stack := below)
      else if Empty(top) then st.(pc := bc.args + 1, stack := below)
      else match OpenLevel(bc, Current(root, st.loops), top)
        case None => Fault(st, true)
        case Some(level) => st.(pc := st.pc + 1, stack := below, loops := st.loops + [level])
  }

  predicate Done(level: Level) {
    level.index >= (if level.ItemLevel? then |level.items| else |level.entries|)
  }

  /** `update_loop_data`: writes the bindings of the current index into the level's data. */
  function Update(level: Level): Option<Level> {
    if Done(level) then None
    else match level
      case ItemLevel(item, items, k, data) =>
        var d :- BindItem(data, item, items, k);
        Some(ItemLevel(item, items, k, d))
      case EntryLevel(key, item, entries, k, data) =>
        var d :- BindEntry(data, key, item, entries[k]);
        Some(EntryLevel(key, item, entries, k, d))
  }

  /** `StartLoop` on a non-empty value: the level pushed for the first iteration. */
  function OpenLevel(bc: Bytecode, data: Json, over: Json): Option<Level> {
    if bc.value.String? then
      if !over.Object? then None
      else
        var base :- WithParent(data);
        Update(EntryLevel(bc.value.s, bc.str, Entries(over.members), 0, base))
    else
      if !over.Array? then None
      else
        var base :- WithParent(data);
        Update(ItemLevel(bc.str, over.items, 0, base))
  }

  predicate Halted(code: seq<Bytecode>, st: State) {
    !st.status.Running? || st.pc >= |code|
  }

  /** `n` steps, fewer if the machine halts before. */
  function Run(env: Env, root: Json, code: seq<Bytecode>, st: State, n: nat): State
    decreases n
  {
    if n == 0 || Halted(code, st) then st
    else Run(env, root, code, Step(env, root, code[st.pc], st), n - 1)
  }

  lemma {:induction false} RunSplits(env: Env, root: Json, code: seq<Bytecode>, st: State, m: nat, n: nat)
    ensures Run(env, root, code, st, m + n) == Run(env, root, code, Run(env, root, code, st, m), n)
    decreases m
  {
    hide Step;
    if m > 0 && !Halted(code, st) {
      RunSplits(env, root, code, Step(env, root, code[st.pc], st), m - 1, n);
    }
  }

  lemma RunOn(env: Env, root: Json, code: seq<Bytecode>, st: State, n: nat)
    requires !Halted(code, st) && Halted(code, Run(env, root, code, st, n))
    ensures n > 0 && Run(env, root, code, st, n) == Run(env, root, code, Step(env, root, code[st.pc], st), n - 1)
  {
    hide Step;
  }

  const Start := State(0, [], [], "", Running)

  /** The renderer. `m_data` is not kept: it always is the innermost loop's data or the root. */
  class Renderer {
    const env: Env
    var stack: seq<Json>
    var loopStack: seq<Level>

    constructor (env: Env)
      ensures this.env == env && stack == [] && loopStack == []
    {
      this.env := env;
      stack, loopStack := [], [];
    }

    /**
     * The dispatch loop. `steps` bounds a run that halts; the machine itself does not need it.
     */
    method RenderTo(code: seq<Bytecode>, root: Json, ghost steps: nat) returns (out: string, status: Status)
      requires Halted(code, Run(env, root, code, State(0, stack, loopStack, "", Running), steps))
      modifies this
      ensures exists i: nat ::
        State(i, stack, loopStack, out, status) ==
          Run(env, root, code, State(0, old(stack), old(loopStack), "", Running), steps)
    {
      out, status := "", Running;
      var i: nat := 0;
      ghost var left: nat := steps;
      ghost var goal := Run(env, root, code, State(0, stack, loopStack, "", Running), steps);
      while i < |code| && status.Running?
        invariant goal == Run(env, root, code, State(i, stack, loopStack, out, status), left)
        invariant Halted(code, goal)
        decreases left
      {
        hide Run, PrintStep, OperandStep, ControlStep, CallStep;
        var bc := code[i];
        ghost var before := State(i, stack, loopStack, out, status);
        RunOn(env, root, code, before, left);
        if bc.op.PrintText? {
          out, i := out + bc.str, i + 1;
        } else if bc.op.PrintValue? {
          out, i, status := Print(bc, root, i, out);
        } else if bc.op.Push? || bc.op.Default? {
          i, status := Operand(bc, root, i, out);
        } else if IsControl(bc.op) {
          i, status := Control(bc, root, i, out);
        } else {
          i, status := Call(bc, root, i, out);
        }
        assert State(i, stack, loopStack, out, status) == Step(env, root, bc, before);
        left := left - 1;
      }
    }

    /** `PrintValue` */
    method Print(bc: Bytecode, root: Json, i: nat, out: string) returns (text: string, next: nat, status: Status)
      requires bc.op.PrintValue?
      modifies this`stack
      ensures State(next, stack, loopStack, text, status) ==
              PrintStep(env, root, bc, State(i, old(stack), loopStack, out, Running))
    {
      next, text := i, out;
      var args;
      args, status := GetArgs(bc, Current(root, loopStack));
      if status.Running? && args == [] { status := Stuck; }
      if status.Running? {
        text := out + Shown(env, args[0]);
        PopArgs(bc);
        next := i + 1;
      }
    }

    /** `Push` and `Default`, which read an immediate operand. */
    method Operand(bc: Bytecode, root: Json, i: nat, ghost out: string) returns (next: nat, status: Status)
      requires bc.op.Push? || bc.op.Default?
      modifies this`stack
      ensures State(next, stack, loopStack, out, status) ==
              OperandStep(env, root, bc, State(i, old(stack), loopStack, out, Running))
    {
      next, status := i, Running;
      match GetImm(env, Current(root, loopStack), bc) {
        case Value(v) =>
          if bc.op.Push? {
            stack := stack + [v];
            next := i + 1;
          } else if stack == [] {
            status := Stuck;
          } else {
            stack := stack[|stack| - 1 := v];
            next := i + 1;
          }
        case Throws =>
          if bc.op.Push? {
            status := Failed;
          } else {
            next := i + 1;  // the exception is swallowed and the fallback stays
          }
        case Undefined => status := Stuck;
      }
    }

    /** Operators, builtins and user callbacks. */
    method Call(bc: Bytecode, root: Json, i: nat, ghost out: string) returns (next: nat, status: Status)
      requires !bc.op.PrintText? && !bc.op.PrintValue? && !bc.op.Push? && !bc.op.Default? && !IsControl(bc.op)
      modifies this`stack
      ensures State(next, stack, loopStack, out, status) ==
              CallStep(env, root, bc, State(i, old(stack), loopStack, out, Running))
    {
      hide Apply;
      if bc.op.Nop? { return i + 1, Running; }
      if bc.op.Result? { return i, Failed; }
      if bc.op.Callback? && !env.has(bc.str, bc.args) { return i, Failed; }
      next := i;
      var args;
      args, status := GetArgs(bc, Current(root, loopStack));
      if !status.Running? { return; }
      var result := None;
      if bc.op.Callback? {
        result := env.call(bc.str, args);
      } else {
        if |args| != Arity(bc.op) || args == [] { return i, Stuck; }
        result := Apply(env, root, bc.op, args);
      }
      if result.None? { return i, Failed; }
      PopArgs(bc);
      stack := stack + [result.value];
      next := i + 1;
    }

    /** Jumps and loops. */
    method Control(bc: Bytecode, root: Json, i: nat, ghost out: string) returns (next: nat, status: Status)
      requires IsControl(bc.op)
      modifies this
      ensures State(next, stack, loopStack, out, status) ==
              ControlStep(root, bc, State(i, old(stack), old(loopStack), out, Running))
    {
      next, status := i, Running;
      if bc.op.Jump? { return bc.args, Running; }
      if bc.op.EndLoop? {
        if loopStack == [] { return i, Failed; }
        var level := loopStack[|loopStack| - 1];
        level := level.(index := level.index + 1);
        if Done(level) {
          loopStack := loopStack[..|loopStack| - 1];
          return i + 1, Running;
        }
        var updated := Update(level);
        if updated.None? { return i, Failed; }
        loopStack := loopStack[..|loopStack| - 1] + [updated.value];
        return bc.args, Running;
      }
      if stack == [] { return i, Stuck; }
      var top := stack[|stack| - 1];
      if bc.op.ConditionalJump? {
        var t := Truthy(top);
        if t.None? { return i, Failed; }
        stack := stack[..|stack| - 1];
        return if t.value then i + 1 else bc.args, Running;
      }
      if Empty(top) {
        stack := stack[..|stack| - 1];
        return bc.args + 1, Running;
      }
      var level := OpenLevel(bc, Current(root, loopStack), top);
      if level.None? { return i, Failed; }
      stack := stack[..|stack| - 1];
      loopStack := loopStack + [level.value];
      return i + 1, Running;
    }

    method GetArgs(bc: Bytecode, data: Json) returns (args: seq<Json>, fault: Status)
      ensures match Take(env, data, bc, stack)
              case Operands(taken, _) => args == taken && fault.Running?
              case NoOperands(throws) => fault == if throws then Failed else Stuck
    {
      args := [];
      var fromStack := if bc.flag.Pop? then bc.args else bc.args - 1;
      if fromStack < 0 || fromStack > |stack| { return args, Stuck; }
      args := stack[|stack| - fromStack..];
      if bc.flag.Pop? { return args, Running; }
      match GetImm(env, data, bc) {
        case Value(v) => return args + [v], Running;
        case Throws => return args, Failed;
        case Undefined => return args, Stuck;
      }
    }

    method PopArgs(bc: Bytecode)
      requires 0 <= (if bc.flag.Pop? then bc.args else bc.args - 1) <= |stack|
      modifies this`stack
      ensures stack == old(stack)[..|old(stack)| - (if bc.flag.Pop? then bc.args else bc.args - 1)]
    {
      var popArgs := if bc.flag.Pop? then bc.args else bc.args - 1;
      var i := 0;
      while i < popArgs
        invariant 0 <= i <= popArgs
        invariant stack == old(stack)[..|old(stack)| - i]
      {
        stack := stack[..|stack| - 1];
        i := i + 1;
      }
    }
  }
}
