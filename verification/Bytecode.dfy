/** The instruction set the template compiler emits and the renderer runs. */
module Bytecodes {
  import opened Options
  import opened Json

  datatype Op =
    | Nop | PrintText | PrintValue | Push
    | Not | And | Or | In | Equal | Greater | GreaterEqual | Less | LessEqual
    | At | Different | DivisibleBy | Even | First | Float | Int | Last | Length | Lower
    | Max | Min | Odd | Range | Result | Round | Sort | Upper | Exists | ExistsInObject
    | IsBoolean | IsNumber | IsInteger | IsFloat | IsObject | IsArray | IsString | Default
    | Callback | Jump | ConditionalJump | StartLoop | EndLoop

  /** Where a value-taking instruction finds its last argument. */
  datatype Flag = Pop | Immediate | LookupDot | LookupPointer

  datatype Bytecode = Bytecode(op: Op, args: nat, flag: Flag, value: Json, str: string)

  function Plain(op: Op, args: nat): Bytecode { Bytecode(op, args, Pop, Null, "") }

  /** Number of arguments of an operator or builtin function; 0 for every other instruction. */
  function Arity(op: Op): nat {
    match op
    case And | Or | In | Equal | Greater | GreaterEqual | Less | LessEqual | Different => 2
    case At | Default | DivisibleBy | Round | ExistsInObject => 2
    case Not | Even | First | Float | Int | Last | Length | Lower | Max | Min | Odd | Range | Sort | Upper => 1
    case Exists | IsBoolean | IsNumber | IsInteger | IsFloat | IsObject | IsArray | IsString => 1
    case _ => 0
  }

  predicate IsComparison(op: Op) {
    op in {In, Equal, Greater, Less, LessEqual, GreaterEqual, Different}
  }

  predicate IsInfix(op: Op) {
    op.Not? || op.And? || op.Or? || IsComparison(op)
  }

  /** The builtin of that name in the table the parser registers, told apart by length first. */
  function BuiltinNamed(name: string): Op {
    match |name|
    case 2 => if name == "at" then At else Nop
    case 3 =>
      if name == "int" then Int else if name == "max" then Max
      else if name == "min" then Min else if name == "odd" then Odd else Nop
    case 4 =>
      if name == "even" then Even else if name == "last" then Last else if name == "sort" then Sort else Nop
    case 5 =>
      if name == "first" then First else if name == "float" then Float else if name == "lower" then Lower
      else if name == "range" then Range else if name == "round" then Round
      else if name == "upper" then Upper else Nop
    case 6 => if name == "length" then Length else if name == "exists" then Exists else Nop
    case 7 =>
      if name == "default" then Default else if name == "isFloat" then IsFloat
      else if name == "isArray" then IsArray else Nop
    case 8 =>
      if name == "existsIn" then ExistsInObject else if name == "isNumber" then IsNumber
      else if name == "isObject" then IsObject else if name == "isString" then IsString else Nop
    case 9 => if name == "isBoolean" then IsBoolean else if name == "isInteger" then IsInteger else Nop
    case 11 => if name == "divisibleBy" then DivisibleBy else Nop
    case _ => Nop
  }

  /** `FunctionStorage::find_builtin`: name and number of arguments must match; `Nop` when absent. */
  function FindBuiltin(name: string, numArgs: nat): Op {
    if Arity(BuiltinNamed(name)) == numArgs then BuiltinNamed(name) else Nop
  }

  /** The name a template uses for a builtin function. */
  function BuiltinName(op: Op): string {
    match op
    case At => "at" case Default => "default" case DivisibleBy => "divisibleBy"
    case Even => "even" case First => "first" case Float => "float" case Int => "int"
    case Last => "last" case Length => "length" case Lower => "lower" case Max => "max"
    case Min => "min" case Odd => "odd" case Range => "range" case Round => "round"
    case Sort => "sort" case Upper => "upper" case Exists => "exists"
    case ExistsInObject => "existsIn" case IsBoolean => "isBoolean" case IsNumber => "isNumber"
    case IsInteger => "isInteger" case IsFloat => "isFloat" case IsObject => "isObject"
    case IsArray => "isArray" case IsString => "isString"
    case _ => ""
  }

  /**
   * Everything the renderer takes from outside: the user's callbacks, of which `has` tells the names and numbers of
   * arguments, the JSON printer and the numeric, ordering and string builtins, which stay uninterpreted. `None` is a
   * thrown exception.
   */
  datatype Env = Env(
    pointerNotation: bool,
    has: (string, nat) -> bool,
    call: (string, seq<Json>) -> Option<Json>,
    primitive: (Op, seq<Json>) -> Option<Json>,
    dump: Json -> string)

  /** `get_imm` for a lookup: the data first, then a callback of that name without arguments. */
  function Resolve(env: Env, pointer: bool, data: Json, name: string): Option<Json> {
    match AtPointer(data, if pointer then "/" + name else DotToPointer(name))
    case Some(v) => Some(v)
    case None => if env.has(name, 0) then env.call(name, []) else None
  }

  /** The value an operator or builtin computes; `root` is the data `render_to` was called with. */
  function Apply(env: Env, root: Json, op: Op, args: seq<Json>): Option<Json>
    requires |args| == Arity(op) > 0
  {
    match op
    case Not =>
      var t :- Truthy(args[0]);
      Some(Bool(!t))
    case And =>
      var t :- Truthy(args[0]);
      if !t then Some(Bool(false)) else var u :- Truthy(args[1]); Some(Bool(u))
    case Or =>
      var t :- Truthy(args[0]);
      if t then Some(Bool(true)) else var u :- Truthy(args[1]); Some(Bool(u))
    case In => Some(Bool(Contains(args[1], args[0])))
    case Equal => Some(Bool(args[0] == args[1]))
    case Different => Some(Bool(args[0] != args[1]))
    case Exists =>
      if args[0].String? then Some(Bool(Has(root, args[0].s))) else None
    case ExistsInObject =>
      if args[1].String? then Some(Bool(Has(args[0], args[1].s))) else None
    case IsBoolean => Some(Bool(args[0].Bool?))
    case IsNumber => Some(Bool(args[0].Number?))
    case IsObject => Some(Bool(args[0].Object?))
    case IsArray => Some(Bool(args[0].Array?))
    case IsString => Some(Bool(args[0].String?))
    case _ => env.primitive(op, args)
  }

  /** What `{{ value }}` prints: strings as they are, everything else dumped as JSON. */
  function Shown(env: Env, v: Json): string {
    if v.String? then v.s else env.dump(v)
  }

  // ----- Loop data -----

  /** A loop starts from a copy of the current data, with an enclosing `loop` moved to `loop.parent`. */
  function WithParent(data: Json): Option<Json> {
    if Has(data, "loop") then
      var outer := data.members["loop"];
      var inner :- Put(outer, "parent", outer);
      Put(data, "loop", inner)
    else Some(data)
  }

  /** `update_loop_data` for an array loop at index `k`. */
  function BindItem(data: Json, name: string, items: seq<Json>, k: nat): Option<Json>
    requires k < |items|
  {
    var d :- Put(data, name, items[k]);
    var loop :- LoopInfo(Member(d, "loop"), k, |items|);
    Put(d, "loop", loop)
  }

  /** The counters written into the `loop` object at index `k` of `size` items. */
  function LoopInfo(loop: Json, k: nat, size: nat): Option<Json> {
    var l0 :- Put(loop, "index", Number(k as real));
    var l1 :- Put(l0, "index1", Number((k + 1) as real));
    var l2 :- Put(l1, "is_first", Bool(k == 0));
    Put(l2, "is_last", Bool(k == size - 1))
  }

  /** `update_loop_data` for a key/value loop. */
  function BindEntry(data: Json, key: string, name: string, entry: (string, Json)): Option<Json> {
    var d :- Put(data, key, String(entry.0));
    Put(d, name, entry.1)
  }

  function Members(j: Json): map<string, Json> {
    if j.Object? then j.members else map[]
  }

  lemma LoopInfoOverwrites(loop: Json, k: nat, size: nat)
    requires LoopInfo(loop, k, size).Some?
    ensures LoopInfo(LoopInfo(loop, k, size).value, k + 1, size) == LoopInfo(loop, k + 1, size)
  {
    var m, i, j := Members(loop), k as real, (k + 1) as real;
    OverwriteFour(m, Number(i), Number(j), Bool(k == 0), Bool(k == size - 1),
                  Number((k + 1) as real), Number((k + 2) as real), Bool(false), Bool(k + 1 == size - 1));
  }

  lemma OverwriteFour(m: map<string, Json>, a: Json, b: Json, c: Json, d: Json, a': Json, b': Json, c': Json, d': Json)
    ensures m["index" := a]["index1" := b]["is_first" := c]["is_last" := d]
             ["index" := a']["index1" := b']["is_first" := c']["is_last" := d']
         == m["index" := a']["index1" := b']["is_first" := c']["is_last" := d']
  {
  }

  /** Updating the data of the previous iteration in place is the same as binding afresh. */
  lemma RebindItem(base: Json, name: string, items: seq<Json>, k: nat)
    requires k + 1 < |items|
    requires BindItem(base, name, items, k).Some?
    ensures BindItem(BindItem(base, name, items, k).value, name, items, k + 1) == BindItem(base, name, items, k + 1)
  {
    var loop := Member(Put(base, name, items[k]).value, "loop");
    var info := LoopInfo(loop, k, |items|).value;
    var prev := BindItem(base, name, items, k).value;
    assert prev.members == Members(base)[name := items[k]]["loop" := info];
    if name == "loop" {
      RebindLoop(base, items, k, info);
    } else {
      LoopInfoOverwrites(loop, k, |items|);
      var d2 := prev.members[name := items[k + 1]];
      assert d2["loop"] == info;
      assert loop == Member(Object(Members(base)[name := items[k + 1]]), "loop");
      var info' := LoopInfo(loop, k + 1, |items|).value;
      assert d2["loop" := info'] == Members(base)[name := items[k + 1]]["loop" := info'];
    }
  }

  lemma RebindLoop(base: Json, items: seq<Json>, k: nat, info: Json)
    requires k + 1 < |items| && (base.Null? || base.Object?)
    ensures BindItem(Object(Members(base)["loop" := items[k]]["loop" := info]), "loop", items, k + 1)
         == BindItem(base, "loop", items, k + 1)
  {
    var a := Members(base)["loop" := items[k]]["loop" := info]["loop" := items[k + 1]];
    assert a == Members(base)["loop" := items[k + 1]];
  }

  lemma RebindEntry(base: Json, key: string, name: string, e: (string, Json), f: (string, Json))
    requires BindEntry(base, key, name, e).Some?
    ensures BindEntry(BindEntry(base, key, name, e).value, key, name, f) == BindEntry(base, key, name, f)
  {
    var again, afresh := BindEntry(BindEntry(base, key, name, e).value, key, name, f), BindEntry(base, key, name, f);
    assert again.value.members == afresh.value.members;
  }
}

/** Templates as trees, and what they mean. */
module Templates {
  import opened Options
  import opened Json
  import opened Bytecodes

  datatype Expr =
    | Literal(v: Json)
    | Lookup(name: string)
    | Operation(op: Op, args: seq<Expr>)
    | Invoke(name: string, args: seq<Expr>)

  /** A statement is written between `{%` and `%}` or on a line that starts with `##`. */
  datatype Style = Block | Line

  datatype Node =
    | Text(text: string)
    | Comment
    | Print(e: Expr)
    | If(open: Style, chain: Chain)
    | ForItem(open: Style, item: string, over: Expr, body: Body, close: Style)
    | ForEntry(open: Style, key: string, item: string, over: Expr, body: Body, close: Style)

  datatype Chain = Chain(cond: Expr, yes: Body, tail: Tail)

  datatype Tail =
    | EndIf(close: Style)
    | Else(open: Style, no: Body, close: Style)
    | ElseIf(open: Style, chain: Chain)

  datatype Body = Nil | Cons(head: Node, rest: Body)

  /** Text produced so far, and whether rendering went through or threw. */
  datatype Output = Output(text: string, ok: bool)

  function Then(first: Output, second: Output): Output {
    if first.ok then Output(first.text + second.text, second.ok) else first
  }

  const Aborted := Output("", false)

  /** Meaning of an expression under the innermost data; `None` when evaluation throws. */
  function Eval(env: Env, root: Json, data: Json, e: Expr): Option<Json>
    decreases e, 0
  {
    match e
    case Literal(v) => Some(v)
    case Lookup(name) => Resolve(env, env.pointerNotation, data, name)
    case Operation(op, args) =>
      if op.Default? && |args| == 2 then
        // the fallback is evaluated first, whether or not it is needed
        var fallback :- Eval(env, root, data, args[1]);
        match Eval(env, root, data, args[0])
        case Some(v) => Some(v)
        case None => Some(fallback)
      else
        var vs :- EvalAll(env, root, data, args);
        if |vs| == Arity(op) > 0 then Apply(env, root, op, vs) else None
    case Invoke(name, args) =>
      var vs :- EvalAll(env, root, data, args);
      if env.has(name, |args|) then env.call(name, vs) else None
  }

  function EvalAll(env: Env, root: Json, data: Json, es: seq<Expr>): (r: Option<seq<Json>>)
    ensures r.Some? ==> |r.value| == |es|
    decreases es, 1
  {
    if es == [] then Some([])
    else
      var front :- EvalAll(env, root, data, es[..|es| - 1]);
      var v :- Eval(env, root, data, es[|es| - 1]);
      Some(front + [v])
  }

  function Render(env: Env, root: Json, data: Json, b: Body): Output
    decreases b, 0
  {
    match b
    case Nil => Output("", true)
    case Cons(head, rest) => Then(RenderNode(env, root, data, head), Render(env, root, data, rest))
  }

  function RenderNode(env: Env, root: Json, data: Json, n: Node): Output
    decreases n, 0
  {
    match n
    case Text(text) => Output(text, true)
    case Comment => Output("", true)
    case Print(e) =>
      (match Eval(env, root, data, e)
       case None => Aborted
       case Some(v) => Output(Shown(env, v), true))
    case If(_, chain) => RenderChain(env, root, data, chain)
    case ForItem(_, item, over, body, _) =>
      (match Eval(env, root, data, over)
       case None => Aborted
       case Some(v) =>
         if Empty(v) then Output("", true)
         else if !v.Array? then Aborted
         else match WithParent(data)
           case None => Aborted
           case Some(base) => RenderItems(env, root, base, item, v.items, 0, body))
    case ForEntry(_, key, item, over, body, _) =>
      (match Eval(env, root, data, over)
       case None => Aborted
       case Some(v) =>
         if Empty(v) then Output("", true)
         else if !v.Object? then Aborted
         else match WithParent(data)
           case None => Aborted
           case Some(base) => RenderEntries(env, root, base, key, item, Entries(v.members), 0, body))
  }

  function RenderChain(env: Env, root: Json, data: Json, c: Chain): Output
    decreases c, 0
  {
    match Eval(env, root, data, c.cond)
    case None => Aborted
    case Some(v) =>
      match Truthy(v)
      case None => Aborted
      case Some(true) => Render(env, root, data, c.yes)
      case Some(false) =>
        match c.tail
        case EndIf(_) => Output("", true)
        case Else(_, no, _) => Render(env, root, data, no)
        case ElseIf(_, next) => RenderChain(env, root, data, next)
  }

  /** Iterations `k..` of an array loop, each with its own fresh bindings. */
  function RenderItems(env: Env, root: Json, base: Json, item: string, items: seq<Json>, k: nat, body: Body): Output
    requires k <= |items|
    decreases body, 1, |items| - k
  {
    if k == |items| then Output("", true)
    else match BindItem(base, item, items, k)
      case None => Aborted
      case Some(data) =>
        Then(Render(env, root, data, body), RenderItems(env, root, base, item, items, k + 1, body))
  }

  function RenderEntries(env: Env, root: Json, base: Json, key: string, item: string,
                         entries: seq<(string, Json)>, k: nat, body: Body): Output
    requires k <= |entries|
    decreases body, 1, |entries| - k
  {
    if k == |entries| then Output("", true)
    else match BindEntry(base, key, item, entries[k])
      case None => Aborted
      case Some(data) =>
        Then(Render(env, root, data, body), RenderEntries(env, root, base, key, item, entries, k + 1, body))
  }
}
