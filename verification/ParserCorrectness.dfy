/** Writing a template down as tokens. */
module Printer {
  import opened Options
  import opened Json
  import opened Bytecodes
  import opened Compiler
  import opened Tokens
  import Templates

  type Expr = Templates.Expr

  /** Binding strength, from `or` (0) over `and`, `not` and comparisons to data (4). */
  function Level(e: Expr): nat {
    if e.Operation? then
      if e.op.Or? then 0 else if e.op.And? then 1 else if e.op.Not? then 2
      else if IsComparison(e.op) then 3 else 4
    else 4
  }

  function ComparisonToken(op: Op): Token {
    match op
    case In => Id("in")
    case Equal => Token.Equal
    case Greater => GreaterThan
    case Less => LessThan
    case LessEqual => Token.LessEqual
    case GreaterEqual => Token.GreaterEqual
    case Different => NotEqual
    case _ => Unknown
  }

  /** Names and argument counts the grammar can express. */
  predicate Printable(e: Expr) {
    match e
    case Literal(_) => true
    case Lookup(name) => name != "not" && name != "true" && name != "false" && name != "null"
    case Operation(op, args) => |args| == Arity(op) > 0 && forall a :: a in args ==> Printable(a)
    case Invoke(name, args) =>
      name != "not" && FindBuiltin(name, |args|).Nop? && forall a :: a in args ==> Printable(a)
  }

  /** `e` where an operand of binding strength `level` is expected; parenthesised only if it must be. */
  function PrintExpr(e: Expr, level: nat): seq<Token>
    requires Printable(e) && level <= 4
    decreases e, 1
  {
    if Level(e) < level then [LeftParen] + PrintBare(e) + [RightParen] else PrintBare(e)
  }

  function PrintBare(e: Expr): seq<Token>
    requires Printable(e)
    decreases e, 0
  {
    match e
    case Literal(v) => [Token.Literal(Some(v))]
    case Lookup(name) => [Id(name)]
    case Operation(op, args) =>
      if op.Or? then PrintExpr(args[0], 1) + [Id("or")] + PrintExpr(args[1], 1)
      else if op.And? then PrintExpr(args[0], 2) + [Id("and")] + PrintExpr(args[1], 2)
      else if op.Not? then [Id("not")] + PrintExpr(args[0], 2)
      else if IsComparison(op) then PrintExpr(args[0], 4) + [ComparisonToken(op)] + PrintExpr(args[1], 4)
      else [Id(BuiltinName(op)), LeftParen] + PrintArgs(args, 0)
    case Invoke(name, args) => [Id(name), LeftParen] + PrintArgs(args, 0)
  }

  /** Arguments from `i` on, with the closing parenthesis. */
  function PrintArgs(args: seq<Expr>, i: nat): seq<Token>
    requires i <= |args| && forall a :: a in args ==> Printable(a)
    decreases args, |args| - i
  {
    if i == |args| then [RightParen]
    else PrintExpr(args[i], 0) + (if i + 1 == |args| then [RightParen] else [Comma] + PrintArgs(args, i + 1))
  }

  // ----- Templates -----

  function Opener(style: Templates.Style): Token {
    if style.Block? then StatementOpen else LineStatementOpen
  }

  function Closer(style: Templates.Style): Token {
    if style.Block? then StatementClose else LineStatementClose
  }

  function Tag(style: Templates.Style, inner: seq<Token>): seq<Token> {
    [Opener(style)] + inner + [Closer(style)]
  }

  predicate PrintableBody(b: Templates.Body) {
    match b
    case Nil => true
    case Cons(head, rest) => PrintableNode(head) && PrintableBody(rest)
  }

  predicate PrintableNode(n: Templates.Node) {
    match n
    case Text(_) => true
    case Comment => true
    case Print(e) => Printable(e)
    case If(_, chain) => PrintableChain(chain)
    case ForItem(_, _, over, body, _) => Printable(over) && PrintableBody(body)
    case ForEntry(_, key, _, over, body, _) => key != "" && Printable(over) && PrintableBody(body)
  }

  predicate PrintableChain(c: Templates.Chain) {
    && Printable(c.cond)
    && PrintableBody(c.yes)
    && PrintableTail(c.tail)
  }

  predicate PrintableTail(t: Templates.Tail) {
    match t
    case EndIf(_) => true
    case Else(_, no, _) => PrintableBody(no)
    case ElseIf(_, next) => PrintableChain(next)
  }

  function PrintBody(b: Templates.Body): seq<Token>
    requires PrintableBody(b)
  {
    match b
    case Nil => []
    case Cons(head, rest) => PrintNode(head) + PrintBody(rest)
  }

  function PrintNode(n: Templates.Node): seq<Token>
    requires PrintableNode(n)
  {
    match n
    case Text(text) => [Token.Text(text)]
    case Comment => [CommentOpen, CommentClose]
    case Print(e) => [ExpressionOpen] + PrintExpr(e, 0) + [ExpressionClose]
    case If(open, chain) =>
      assert PrintableChain(chain);
      Tag(open, [Id("if")] + PrintExpr(chain.cond, 0)) + PrintBranches(chain)
    case ForItem(open, item, over, body, close) =>
      Tag(open, [Id("for"), Id(item), Id("in")] + PrintExpr(over, 0)) + PrintBody(body) + Tag(close, [Id("endfor")])
    case ForEntry(open, key, item, over, body, close) =>
      Tag(open, [Id("for"), Id(key), Comma, Id(item), Id("in")] + PrintExpr(over, 0)) + PrintBody(body)
      + Tag(close, [Id("endfor")])
  }

  /** A chain after its first condition. */
  function PrintBranches(c: Templates.Chain): seq<Token>
    requires PrintableChain(c)
  {
    PrintBody(c.yes) + PrintTail(c.tail)
  }

  function PrintTail(t: Templates.Tail): seq<Token>
    requires PrintableTail(t)
  {
    match t
    case EndIf(close) => Tag(close, [Id("endif")])
    case Else(open, no, close) => Tag(open, [Id("else")]) + PrintBody(no) + Tag(close, [Id("endif")])
    case ElseIf(open, next) =>
      assert PrintableChain(next);
      Tag(open, [Id("else"), Id("if")] + PrintExpr(next.cond, 0)) + PrintBranches(next)
  }
}

/** What parsing a printed expression emits, for every expression the grammar can write. */
module ExpressionParsing {
  import opened Options
  import opened Json
  import opened Bytecodes
  import opened Compiler
  import opened Tokens
  import opened ParserSpec
  import opened Printer
  import Templates

  /**
   * The code after compiling `e` behind `before`, where fusing and swapping may reach into `before`. `None` is the
   * swap of `default` with fewer than two instructions, which is undefined behaviour.
   */
  function ExprOnto(pointer: bool, before: Code, e: Expr): Option<Code>
    decreases e, 0
  {
    match e
    case Literal(v) => Some(before + [PushLiteral(v)])
    case Lookup(name) => Some(before + [PushLookup(pointer, name)])
    case Operation(op, args) =>
      var code :- ArgsOnto(pointer, before, args, 0);
      if !op.Default? then Some(AppendFunction(code, op, |args|))
      else if |code| < 2 then None
      else Some(AppendFunction(SwapLastTwo(code), op, |args|))
    case Invoke(name, args) =>
      var code :- ArgsOnto(pointer, before, args, 0);
      Some(AppendCallback(code, name, |args|))
  }

  /** The same for the arguments from `i` on. */
  function ArgsOnto(pointer: bool, before: Code, args: seq<Expr>, i: nat): Option<Code>
    requires i <= |args|
    decreases args, |args| - i
  {
    if i == |args| then Some(before)
    else
      var code :- ExprOnto(pointer, before, args[i]);
      ArgsOnto(pointer, code, args, i + 1)
  }

  function ParseLevel(pointer: bool, level: nat, s: Stream): ExprOutcome
    requires level <= 4
  {
    if level == 0 then ParseOr(pointer, s)
    else if level == 1 then ParseAnd(pointer, s)
    else if level == 2 then ParseNot(pointer, s)
    else if level == 3 then ParseComparison(pointer, s)
    else ParseDatum(pointer, s)
  }

  /** `ts` does not continue an operand of binding strength `level`. */
  predicate Ends(level: nat, ts: seq<Token>) {
    var t := Head(ts);
    && !t.LeftParen?
    && (level <= 3 ==> ComparisonOp(t).Nop?)
    && (level <= 1 ==> t != Id("and"))
    && (level == 0 ==> t != Id("or"))
  }

  /** Parsing `printed` in front of `ts` emits `code` and stops at `ts`, or crashes. */
  ghost predicate Emits(pointer: bool, level: nat, printed: seq<Token>, ts: seq<Token>, before: Code, code: Option<Code>)
    requires level <= 4
  {
    ParseLevel(pointer, level, Stream(printed + ts, before)) ==
    if code.Some? then Accept(Stream(ts, code.value)) else Crashes
  }

  lemma StartsNoNot(e: Expr, level: nat, ts: seq<Token>)
    requires Printable(e) && 3 <= level <= 4
    ensures Head(PrintExpr(e, level) + ts) != Id("not")
    ensures PrintExpr(e, level) != []
    decreases e
  {
    if Level(e) == 3 && level == 3 {
      assert e.args[0] in e.args;
      var rest := [ComparisonToken(e.op)] + PrintExpr(e.args[1], 4);
      StartsNoNot(e.args[0], 4, rest + ts);
      assert PrintExpr(e, level) + ts == PrintExpr(e.args[0], 4) + (rest + ts);
    }
  }

  lemma BuiltinFound(op: Op)
    requires Arity(op) > 0 && !IsInfix(op)
    ensures FindBuiltin(BuiltinName(op), Arity(op)) == op
    ensures BuiltinName(op) != "not"
  {
    hide BuiltinNamed;
    ShortBuiltin(op);
    LongBuiltin(op);
  }

  lemma ShortBuiltin(op: Op)
    requires Arity(op) > 0 && !IsInfix(op)
    ensures |BuiltinName(op)| <= 5 ==> BuiltinNamed(BuiltinName(op)) == op && BuiltinName(op) != "not"
  {
  }

  lemma LongBuiltin(op: Op)
    requires Arity(op) > 0 && !IsInfix(op)
    ensures |BuiltinName(op)| > 5 ==> BuiltinNamed(BuiltinName(op)) == op && BuiltinName(op) != "not"
  {
  }

  /** Every expression the grammar can write is parsed, with the parentheses it needs, to the code of its tree. */
  lemma {:induction false} ParsesExpr(pointer: bool, e: Expr, level: nat, ts: seq<Token>, before: Code)
    requires Printable(e) && level <= 4 && Ends(level, ts)
    ensures Emits(pointer, level, PrintExpr(e, level), ts, before, ExprOnto(pointer, before, e))
    decreases e, if Level(e) < level then 9 else 8, 4 - level
  {
    hide ParseOr, ParseAnd, ParseNot, ParseComparison, ParseDatum, ExprOnto, PrintBare, Printable;
    var code := ExprOnto(pointer, before, e);
    if level == Level(e) {
      ParsesBare(pointer, e, ts, before);
    } else if level == 4 {
      ParsesExpr(pointer, e, 0, [RightParen] + ts, before);
      Parenthesised(pointer, PrintBare(e), ts, before, code);
    } else {
      ParsesExpr(pointer, e, level + 1, ts, before);
      if level == 2 { StartsNoNot(e, 3, ts); }
      Climbs(pointer, level, PrintExpr(e, level), ts, before, code);
    }
  }

  lemma Parenthesised(pointer: bool, printed: seq<Token>, ts: seq<Token>, before: Code, code: Option<Code>)
    requires Emits(pointer, 0, printed, [RightParen] + ts, before, code)
    ensures Emits(pointer, 4, [LeftParen] + printed + [RightParen], ts, before, code)
  {
    hide ParseOr;
    var all := [LeftParen] + printed + [RightParen] + ts;
    assert Tail(all) == printed + ([RightParen] + ts);
    assert Tail([RightParen] + ts) == ts;
  }

  lemma Climbs(pointer: bool, level: nat, printed: seq<Token>, ts: seq<Token>, before: Code, code: Option<Code>)
    requires level < 4 && Emits(pointer, level + 1, printed, ts, before, code) && Ends(level, ts)
    requires level == 2 ==> Head(printed + ts) != Id("not")
    ensures Emits(pointer, level, printed, ts, before, code)
  {
  }

  /** An expression at its own level. */
  lemma {:induction false} ParsesBare(pointer: bool, e: Expr, ts: seq<Token>, before: Code)
    requires Printable(e) && Ends(Level(e), ts)
    ensures Emits(pointer, Level(e), PrintBare(e), ts, before, ExprOnto(pointer, before, e))
    decreases e, 7
  {
    hide ParseOr, ParseAnd, ParseNot, ParseComparison, ParseDatum, ExprOnto, ParseArgs;
    match e
    case Literal(_) => ParsesLeaf(pointer, e, ts, before);
    case Lookup(_) => ParsesLeaf(pointer, e, ts, before);
    case Operation(op, args) =>
      if op.Not? {
        ParsesNegation(pointer, e, ts, before);
      } else if IsInfix(op) {
        ParsesInfix(pointer, e, ts, before);
      } else {
        BuiltinFound(op);
        ParsesCall(pointer, e, BuiltinName(op), ts, before);
      }
    case Invoke(name, args) => ParsesCall(pointer, e, name, ts, before);
  }

  lemma ParsesLeaf(pointer: bool, e: Expr, ts: seq<Token>, before: Code)
    requires Printable(e) && Leaf(e) && Ends(4, ts)
    ensures Emits(pointer, 4, PrintBare(e), ts, before, ExprOnto(pointer, before, e))
  {
    assert Tail(PrintBare(e) + ts) == ts;
  }

  lemma {:induction false} ParsesNegation(pointer: bool, e: Expr, ts: seq<Token>, before: Code)
    requires Printable(e) && e.Operation? && e.op.Not? && Ends(2, ts)
    ensures Emits(pointer, 2, PrintBare(e), ts, before, ExprOnto(pointer, before, e))
    decreases e, 6
  {
    hide ParseComparison, ParseDatum, AppendFunction, ExprOnto;
    var a := e.args[0];
    assert a in e.args;
    ParsesExpr(pointer, a, 2, ts, before);
    assert Tail(PrintBare(e) + ts) == PrintExpr(a, 2) + ts;
    UnaryOnto(pointer, before, e);
  }

  lemma UnaryOnto(pointer: bool, before: Code, e: Expr)
    requires e.Operation? && !e.op.Default? && |e.args| == 1
    ensures ExprOnto(pointer, before, e) ==
            match ExprOnto(pointer, before, e.args[0])
            case None => None
            case Some(code) => Some(AppendFunction(code, e.op, 1))
  {
    hide AppendFunction;
    var code := ExprOnto(pointer, before, e.args[0]);
    if code.Some? { assert ArgsOnto(pointer, code.value, e.args, 1) == code; }
  }

  lemma BinaryOnto(pointer: bool, before: Code, e: Expr)
    requires e.Operation? && !e.op.Default? && |e.args| == 2
    ensures var first := ExprOnto(pointer, before, e.args[0]);
            ExprOnto(pointer, before, e) ==
            if first.None? then None
            else match ExprOnto(pointer, first.value, e.args[1])
                 case None => None
                 case Some(code) => Some(AppendFunction(code, e.op, 2))
  {
    hide AppendFunction;
    var first := ExprOnto(pointer, before, e.args[0]);
    if first.Some? {
      var second := ExprOnto(pointer, first.value, e.args[1]);
      if second.Some? { assert ArgsOnto(pointer, second.value, e.args, 2) == second; }
      assert ArgsOnto(pointer, first.value, e.args, 1) == second;
    }
  }

  /** The token between the operands and the level of the operands. */
  function InfixToken(op: Op): Token {
    if op.Or? then Id("or") else if op.And? then Id("and") else ComparisonToken(op)
  }

  function OperandLevel(op: Op): nat {
    if op.Or? then 1 else if op.And? then 2 else 4
  }

  lemma {:induction false} ParsesInfix(pointer: bool, e: Expr, ts: seq<Token>, before: Code)
    requires Printable(e) && e.Operation? && IsInfix(e.op) && !e.op.Not? && Ends(Level(e), ts)
    ensures Emits(pointer, Level(e), PrintBare(e), ts, before, ExprOnto(pointer, before, e))
    decreases e, 6
  {
    hide ParseOr, ParseAnd, ParseNot, ParseComparison, ParseDatum, ExprOnto, AppendFunction, PrintExpr, ParseLevel;
    var a, b := e.args[0], e.args[1];
    assert a in e.args && b in e.args;
    var middle, level := InfixToken(e.op), OperandLevel(e.op);
    var second := PrintExpr(b, level);
    ParsesExpr(pointer, a, level, [middle] + second + ts, before);
    var ca := ExprOnto(pointer, before, a);
    BinaryOnto(pointer, before, e);
    if ca.Some? {
      ParsesExpr(pointer, b, level, ts, ca.value);
      InfixJoins(pointer, e.op, PrintExpr(a, level), second, ts, before, ca.value, ExprOnto(pointer, ca.value, b));
    } else {
      InfixCrashes(pointer, e.op, PrintExpr(a, level) + ([middle] + second + ts), before);
    }
    assert PrintBare(e) + ts == PrintExpr(a, level) + ([middle] + second + ts);
  }

  lemma InfixCrashes(pointer: bool, op: Op, ts: seq<Token>, before: Code)
    requires op.Or? || op.And? || IsComparison(op)
    requires ParseLevel(pointer, OperandLevel(op), Stream(ts, before)) == Crashes
    ensures ParseLevel(pointer, if op.Or? then 0 else if op.And? then 1 else 3, Stream(ts, before)) == Crashes
  {
    hide ParseNot, ParseDatum;
  }

  lemma InfixJoins(pointer: bool, op: Op, first: seq<Token>, second: seq<Token>, ts: seq<Token>,
                   before: Code, ca: Code, cb: Option<Code>)
    requires op.Or? || op.And? || IsComparison(op)
    requires Emits(pointer, OperandLevel(op), first, [InfixToken(op)] + second + ts, before, Some(ca))
    requires Emits(pointer, OperandLevel(op), second, ts, ca, cb)
    ensures var level := if op.Or? then 0 else if op.And? then 1 else 3;
            ParseLevel(pointer, level, Stream(first + ([InfixToken(op)] + second + ts), before)) ==
            if cb.Some? then Accept(Stream(ts, AppendFunction(cb.value, op, 2))) else Crashes
  {
    hide AppendFunction, ParseNot, ParseDatum, ParseAnd, ParseOr, ParseComparison;
    var next := [InfixToken(op)] + second + ts;
    assert Tail(next) == second + ts;
    JoinsAt(pointer, op, Stream(first + next, before), Stream(next, ca));
  }

  /** One operand, the operator's token, and what the second operand gives. */
  lemma JoinsAt(pointer: bool, op: Op, s: Stream, t: Stream)
    requires op.Or? || op.And? || IsComparison(op)
    requires ParseLevel(pointer, OperandLevel(op), s) == Accept(t) && Head(t.rest) == InfixToken(op)
    ensures ParseLevel(pointer, if op.Or? then 0 else if op.And? then 1 else 3, s) ==
            match ParseLevel(pointer, OperandLevel(op), Advance(t))
            case Accept(u) => Accept(u.(code := AppendFunction(u.code, op, 2)))
            case other => other
  {
    hide AppendFunction, Advance;
    if op.Or? {
      hide ParseAnd;
      assert ParseOr(pointer, s) == ParseLevel(pointer, 0, s);
    } else if op.And? {
      hide ParseNot;
      assert ParseAnd(pointer, s) == ParseLevel(pointer, 1, s);
    } else {
      hide ParseDatum;
      ComparisonFound(op);
      assert ParseComparison(pointer, s) == ParseLevel(pointer, 3, s);
    }
  }

  lemma ComparisonFound(op: Op)
    requires IsComparison(op)
    ensures ComparisonOp(ComparisonToken(op)) == op
  {
  }

  // ----- Calls -----

  lemma {:induction false} ParsesArgs(pointer: bool, args: seq<Expr>, i: nat, ts: seq<Token>, before: Code)
    requires i < |args| && forall a :: a in args ==> Printable(a)
    ensures ParseArgs(pointer, Stream(PrintArgs(args, i) + ts, before), i) ==
            match ArgsOnto(pointer, before, args, i)
            case None => Crashes
            case Some(code) => Accept((Stream(ts, code), |args|))
    decreases args, |args| - i
  {
    hide ParseOr, ParseArgs, ExprOnto, ArgsOnto, Printable, PrintExpr, PrintArgs, ParseLevel;
    var next := ArgsRest(args, i, ts);
    PrintedArgs(args, i, ts);
    ParsesExpr(pointer, args[i], 0, next, before);
    var code := ExprOnto(pointer, before, args[i]);
    ArgStep(pointer, PrintExpr(args[i], 0), next, before, code, i);
    ArgsOntoNext(pointer, before, args, i);
    if code.Some? && i + 1 < |args| { ParsesArgs(pointer, args, i + 1, ts, code.value); }
  }

  lemma ArgsOntoNext(pointer: bool, before: Code, args: seq<Expr>, i: nat)
    requires i < |args|
    ensures var code := ExprOnto(pointer, before, args[i]);
            && (code.None? ==> ArgsOnto(pointer, before, args, i).None?)
            && (code.Some? ==>
                  ArgsOnto(pointer, before, args, i) ==
                  if i + 1 == |args| then code else ArgsOnto(pointer, code.value, args, i + 1))
  {
    hide ExprOnto;
    var code := ExprOnto(pointer, before, args[i]);
    if code.Some? && i + 1 == |args| { assert ArgsOnto(pointer, code.value, args, i + 1) == code; }
  }

  /** What follows argument `i`. */
  function ArgsRest(args: seq<Expr>, i: nat, ts: seq<Token>): seq<Token>
    requires i < |args| && forall a :: a in args ==> Printable(a)
  {
    if i + 1 == |args| then [RightParen] + ts else [Comma] + (PrintArgs(args, i + 1) + ts)
  }

  lemma PrintedArgs(args: seq<Expr>, i: nat, ts: seq<Token>)
    requires i < |args| && forall a :: a in args ==> Printable(a)
    ensures PrintArgs(args, i) + ts == PrintExpr(args[i], 0) + ArgsRest(args, i, ts)
    ensures Ends(0, ArgsRest(args, i, ts))
    ensures Head(ArgsRest(args, i, ts)) == if i + 1 == |args| then RightParen else Comma
    ensures Tail(ArgsRest(args, i, ts)) == if i + 1 == |args| then ts else PrintArgs(args, i + 1) + ts
  {
    hide PrintExpr, Printable;
  }

  lemma ArgStep(pointer: bool, printed: seq<Token>, next: seq<Token>, before: Code, code: Option<Code>, n: nat)
    requires Emits(pointer, 0, printed, next, before, code)
    ensures var o := ParseArgs(pointer, Stream(printed + next, before), n);
            && (code.None? ==> o == Crashes)
            && (code.Some? && Head(next).RightParen? ==> o == Accept((Stream(Tail(next), code.value), n + 1)))
            && (code.Some? && Head(next).Comma? ==> o == ParseArgs(pointer, Stream(Tail(next), code.value), n + 1))
  {
    hide ParseOr;
  }

  lemma {:induction false} ParsesCall(pointer: bool, e: Expr, name: string, ts: seq<Token>, before: Code)
    requires Printable(e) && (e.Invoke? || (e.Operation? && !IsInfix(e.op)))
    requires name == if e.Invoke? then e.name else BuiltinName(e.op)
    requires Ends(4, ts)
    ensures Emits(pointer, 4, PrintBare(e), ts, before, ExprOnto(pointer, before, e))
    decreases e, 6
  {
    hide ExprOnto, ArgsOnto, ParseOr, ParseArgs, PrintExpr, PrintArgs, FindBuiltin, BuiltinName, FinishCall, ParseDatum;
    var inside := PrintArgs(e.args, 0) + ts;
    assert PrintBare(e) + ts == [Id(name), LeftParen] + inside;
    CallOpens(pointer, name, inside, before);
    FinishesCall(pointer, e, name, ts, before);
    if e.args == [] {
      assert PrintArgs(e.args, 0) == [RightParen] by { EmptyArgs(); }
      NoArgs(pointer, before);
    } else {
      ParsesArgs(pointer, e.args, 0, ts, before);
      ArgsNotClosed(e.args, ts);
    }
  }

  lemma NoArgs(pointer: bool, before: Code)
    ensures ArgsOnto(pointer, before, [], 0) == Some(before)
  {
  }

  lemma EmptyArgs()
    ensures PrintArgs([], 0) == [RightParen]
  {
  }

  lemma CallOpens(pointer: bool, name: string, inside: seq<Token>, before: Code)
    ensures ParseDatum(pointer, Stream([Id(name), LeftParen] + inside, before)) ==
            if Head(inside).RightParen? then FinishCall(name, 0, Stream(Tail(inside), before))
            else match ParseArgs(pointer, Stream(inside, before), 0)
              case Accept((t, n)) => FinishCall(name, n, t)
              case Decline(_) => Rejects
              case Rejects => Rejects
              case Crashes => Crashes
  {
    hide ParseArgs, FinishCall;
    var all := [Id(name), LeftParen] + inside;
    assert Tail(all) == [LeftParen] + inside && Tail(Tail(all)) == inside;
  }

  /** The first argument does not begin with a closing parenthesis. */
  lemma ArgsNotClosed(args: seq<Expr>, ts: seq<Token>)
    requires args != [] && forall a :: a in args ==> Printable(a)
    ensures !Head(PrintArgs(args, 0) + ts).RightParen?
  {
    var rest := if |args| == 1 then [RightParen] else [Comma] + PrintArgs(args, 1);
    assert PrintArgs(args, 0) + ts == PrintExpr(args[0], 0) + (rest + ts);
    StartsOpen(args[0], 0, rest + ts);
  }

  lemma StartsOpen(e: Expr, level: nat, ts: seq<Token>)
    requires Printable(e) && level <= 4
    ensures !Head(PrintExpr(e, level) + ts).RightParen? && !Head(PrintExpr(e, level) + ts).Eof?
    decreases e
  {
    if Level(e) >= level && e.Operation? && IsInfix(e.op) && !e.op.Not? {
      assert e.args[0] in e.args;
      var l := OperandLevel(e.op);
      var rest := [InfixToken(e.op)] + PrintExpr(e.args[1], l);
      assert PrintExpr(e, level) + ts == PrintExpr(e.args[0], l) + (rest + ts);
      StartsOpen(e.args[0], l, rest + ts);
    }
  }

  lemma FinishesCall(pointer: bool, e: Expr, name: string, ts: seq<Token>, before: Code)
    requires Printable(e) && (e.Invoke? || (e.Operation? && !IsInfix(e.op)))
    requires name == if e.Invoke? then e.name else BuiltinName(e.op)
    ensures match ArgsOnto(pointer, before, e.args, 0)
            case None => ExprOnto(pointer, before, e) == None
            case Some(code) =>
              FinishCall(name, |e.args|, Stream(ts, code)) ==
              if ExprOnto(pointer, before, e).Some? then Accept(Stream(ts, ExprOnto(pointer, before, e).value)) else Crashes
  {
    hide ArgsOnto, AppendFunction, AppendCallback, FindBuiltin, BuiltinName, SwapLastTwo;
    if e.Operation? { BuiltinFound(e.op); }
  }

  // ----- Code that stays in one piece -----

  /** The code so far cannot swallow the start of `e`. */
  predicate Separate(before: Code, e: Expr) {
    StartsWithNullaryCall(e) ==> !EndsWithLiteral(before)
  }

  lemma AppendAfter(before: Code, code: Code, op: Op, n: nat)
    requires code != []
    ensures AppendFunction(before + code, op, n) == before + AppendFunction(code, op, n)
  {
  }

  lemma AppendCallbackAfter(before: Code, code: Code, name: string, n: nat)
    requires code != [] || !EndsWithLiteral(before)
    ensures AppendCallback(before + code, name, n) == before + AppendCallback(code, name, n)
  {
    if code == [] { assert before + code == before; }
  }

  lemma SwapAfter(before: Code, code: Code)
    requires |code| >= 2
    ensures SwapLastTwo(before + code) == before + SwapLastTwo(code)
  {
  }

  /** Then compiling `e` behind any code appends the code of `e` alone. */
  lemma {:induction false} CompilesBehind(pointer: bool, before: Code, e: Expr)
    requires Compiles(e) && Separate(before, e)
    ensures ExprOnto(pointer, before, e) == Some(before + ExprCode(pointer, e))
    decreases e, 1
  {
    hide AppendFunction, AppendCallback, EndsWithLiteral, ArgsCode, ArgsOnto;
    if !Leaf(e) {
      var args := ArgsCode(pointer, e.args);
      ArgsBehind(pointer, before, e.args, 0);
      NoArgsCode(pointer);
      assert e.args[..0] == [] && before + [] == before;
      if e.Invoke? {
        AppendCallbackAfter(before, args, e.name, |e.args|);
      } else if e.op.Default? {
        SwapAfter(before, args);
        AppendAfter(before, SwapLastTwo(args), e.op, 2);
      } else {
        AppendAfter(before, args, e.op, |e.args|);
      }
    }
  }

  lemma NoArgsCode(pointer: bool)
    ensures ArgsCode(pointer, []) == []
  {
  }

  lemma {:induction false} ArgsBehind(pointer: bool, before: Code, args: seq<Expr>, i: nat)
    requires i <= |args| && (forall a :: a in args ==> Compiles(a)) && NoLiteralBeforeNullary(args)
    requires args != [] ==> Separate(before, args[0])
    ensures ArgsOnto(pointer, before + ArgsCode(pointer, args[..i]), args, i) == Some(before + ArgsCode(pointer, args))
    decreases args, |args| - i
  {
    hide ExprOnto, ExprCode, ArgsCode, Compiles, StartsWithNullaryCall, EndsWithLiteral, Separate, NoLiteralBeforeNullary;
    if i == |args| {
      assert args[..i] == args;
    } else {
      var here := before + ArgsCode(pointer, args[..i]);
      SeparateAt(pointer, args, i, before);
      CompilesBehind(pointer, here, args[i]);
      ArgsExtend(pointer, args, i);
      assert here + ExprCode(pointer, args[i]) == before + ArgsCode(pointer, args[..i + 1]);
      ArgsBehind(pointer, before, args, i + 1);
    }
  }

  lemma ArgsExtend(pointer: bool, args: seq<Expr>, i: nat)
    requires i < |args|
    ensures ArgsCode(pointer, args[..i + 1]) == ArgsCode(pointer, args[..i]) + ExprCode(pointer, args[i])
  {
    assert args[..i + 1][..i] == args[..i];
  }

  lemma SeparateAt(pointer: bool, args: seq<Expr>, i: nat, before: Code)
    requires i < |args| && NoLiteralBeforeNullary(args) && Separate(before, args[0])
    ensures Separate(before + ArgsCode(pointer, args[..i]), args[i])
  {
    var code := ArgsCode(pointer, args[..i]);
    if i == 0 {
      assert args[..0] == [];
      assert before + code == before;
    } else {
      assert args[..i][i - 1] == args[i - 1];
      assert EndsWithLiteral(before + code) <==> EndsWithLiteral(code);
    }
  }

  /** An expression that compiles is parsed to its own code behind whatever code does not swallow its start. */
  lemma ParsesCompiled(pointer: bool, e: Expr, level: nat, ts: seq<Token>, before: Code)
    requires Printable(e) && Compiles(e) && level <= 4 && Ends(level, ts) && Separate(before, e)
    ensures Emits(pointer, level, PrintExpr(e, level), ts, before, Some(before + ExprCode(pointer, e)))
  {
    hide Emits, ExprOnto, PrintExpr, Printable, Compiles, Separate, ExprCode;
    ParsesExpr(pointer, e, level, ts, before);
    CompilesBehind(pointer, before, e);
  }
}

/** Parsing what was printed gives back exactly the code of the tree. */
module ParserCorrectness {
  import opened Options
  import opened Json
  import opened Bytecodes
  import opened Compiler
  import opened Tokens
  import opened ParserSpec
  import opened Printer
  import opened ExpressionParsing
  import Templates

  // ----- Patching -----

  lemma PatchAt(a: Code, x: Bytecode, b: Code, target: nat)
    requires target < ARGS_LIMIT
    ensures Patch(a + [x] + b, |a|, target) == a + [x.(args := target)] + b
  {
  }

  lemma {:induction false} PatchAllPrefix(a: Code, b: Code, jumps: seq<nat>, target: nat)
    requires forall j :: j in jumps ==> j < |a|
    ensures PatchAll(a + b, jumps, target) == PatchAll(a, jumps, target) + b
    decreases |jumps|
  {
    if jumps != [] {
      assert jumps[0] in jumps && forall j :: j in jumps[1..] ==> j in jumps;
      assert Patch(a + b, jumps[0], target) == Patch(a, jumps[0], target) + b;
      PatchAllPrefix(Patch(a, jumps[0], target), b, jumps[1..], target);
    }
  }

  lemma {:induction false} PatchAllLast(code: Code, jumps: seq<nat>, j: nat, target: nat)
    ensures PatchAll(code, jumps + [j], target) == Patch(PatchAll(code, jumps, target), j, target)
    decreases |jumps|
  {
    if jumps == [] {
      assert jumps + [j] == [j];
    } else {
      assert (jumps + [j])[1..] == jumps[1..] + [j];
      PatchAllLast(Patch(code, jumps[0], target), jumps[1..], j, target);
    }
  }

  /** All jumps to the end are patched at once, the newest lies behind `a`. */
  lemma PatchJumps(a: Code, mid: Code, x: Bytecode, b: Code, jumps: seq<nat>, target: nat)
    requires target < ARGS_LIMIT && forall j :: j in jumps ==> j < |a|
    ensures PatchAll(a + mid + [x] + b, jumps + [|a| + |mid|], target)
         == PatchAll(a, jumps, target) + mid + [x.(args := target)] + b
  {
    hide PatchAll, Patch;
    var rest := mid + [x] + b;
    assert a + mid + [x] + b == a + rest;
    PatchAllLast(a + rest, jumps, |a| + |mid|, target);
    PatchAllPrefix(a, rest, jumps, target);
    var a' := PatchAll(a, jumps, target);
    assert a' + rest == (a' + mid) + [x] + b;
    PatchAt(a' + mid, x, b, target);
  }

  // ----- Statements -----

  /** Statement code never ends in a push, so nothing after it can be fused with it. */
  predicate Closed(code: Code) {
    code == [] || !code[|code| - 1].op.Push?
  }

  lemma {:induction false} BodyClosed(pointer: bool, b: Templates.Body, at: nat)
    ensures Closed(BodyCode(pointer, b, at))
    decreases b
  {
    hide NodeCode, NodeSize;
    if b.Cons? {
      NodeClosed(pointer, b.head, at);
      BodyClosed(pointer, b.rest, at + NodeSize(pointer, b.head));
    }
  }

  lemma {:induction false} NodeClosed(pointer: bool, n: Templates.Node, at: nat)
    ensures Closed(NodeCode(pointer, n, at))
    decreases n
  {
    hide ChainCode, ChainSize, ExprCode, BodyCode, BodySize;
    if n.If? { ChainClosed(pointer, n.chain, at, at + ChainSize(pointer, n.chain)); }
  }

  lemma {:induction false} ChainClosed(pointer: bool, c: Templates.Chain, at: nat, end: nat)
    ensures Closed(ChainCode(pointer, c, at, end)) && ChainCode(pointer, c, at, end) != []
    decreases c
  {
    hide ExprCode, BodyCode, BodySize, ChainCode, Closed;
    var first := at + |ExprCode(pointer, c.cond)| + 1;
    var next := first + BodySize(pointer, c.yes);
    BodyClosed(pointer, c.yes, first);
    ChainEnds(pointer, c, at, end);
    match c.tail
    case EndIf(_) =>
    case Else(_, no, _) => BodyClosed(pointer, no, next + 1);
    case ElseIf(_, chain) => ChainClosed(pointer, chain, next + 1, end);
  }

  lemma ChainEnds(pointer: bool, c: Templates.Chain, at: nat, end: nat)
    ensures var first := at + |ExprCode(pointer, c.cond)| + 1;
            var next := first + BodySize(pointer, c.yes);
            var yes := BodyCode(pointer, c.yes, first);
            var code := ChainCode(pointer, c, at, end);
            && code != []
            && (Closed(yes) ==>
                  match c.tail
                  case EndIf(_) => Closed(code)
                  case Else(_, no, _) => Closed(BodyCode(pointer, no, next + 1)) ==> Closed(code)
                  case ElseIf(_, chain) => Closed(ChainCode(pointer, chain, next + 1, end)) ==> Closed(code))
  {
    hide ExprCode, BodyCode, BodySize;
  }

  lemma ClosedAppend(a: Code, b: Code)
    requires Closed(a) && Closed(b)
    ensures Closed(a + b)
  {
    if b == [] { assert a + b == a; }
  }

  /** The parser gets from `s` to `t` and goes on from there. */
  ghost predicate Goes(pointer: bool, s: PState, t: PState) {
    ParseInto(pointer, s) == ParseInto(pointer, t)
  }

  lemma ItemGoes(pointer: bool, s: PState, t: PState)
    requires !Head(s.rest).Eof? && ParseItem(pointer, s) == Accept(t)
    ensures Goes(pointer, s, t)
  {
    hide ParseItem;
  }

  lemma TagGoes(pointer: bool, style: Templates.Style, inner: seq<Token>, ts: seq<Token>, s: PState, t: PState)
    requires s.rest == Tag(style, inner) + ts
    requires ParseStatement(pointer, s.(rest := inner + ([Closer(style)] + ts))) == Accept(t)
    requires t.rest == [Closer(style)] + ts
    ensures Goes(pointer, s, t.(rest := ts))
  {
    hide ParseStatement;
    assert Tail(s.rest) == inner + ([Closer(style)] + ts);
    assert Tail(t.rest) == ts;
    ItemGoes(pointer, s, t.(rest := ts));
  }

  /** A condition at the end of a tag. */
  lemma ConditionParses(pointer: bool, e: Expr, style: Templates.Style, ts: seq<Token>, code: Code)
    requires Printable(e) && Compiles(e) && Closed(code)
    ensures ParseOr(pointer, Stream(PrintExpr(e, 0) + ([Closer(style)] + ts), code))
         == Accept(Stream([Closer(style)] + ts, code + ExprCode(pointer, e)))
  {
    hide ParseOr, ExprCode, PrintExpr, Compiles, Printable;
    ParsesCompiled(pointer, e, 0, [Closer(style)] + ts, code);
  }

  lemma IfGoes(pointer: bool, style: Templates.Style, cond: Expr, ts: seq<Token>, s: PState)
    requires Printable(cond) && Compiles(cond) && Closed(s.code)
    requires s.rest == Tag(style, [Id("if")] + PrintExpr(cond, 0)) + ts
    ensures var code := s.code + ExprCode(pointer, cond);
            Goes(pointer, s, PState(ts, code + [Plain(ConditionalJump, 0)], s.ifs + [IfData(Some(|code|), [])], s.loops))
  {
    hide ParseOr, ExprCode, PrintExpr, Compiles, Printable, Goes, Closed;
    var close := [Closer(style)] + ts;
    var inner := [Id("if")] + PrintExpr(cond, 0);
    ConditionParses(pointer, cond, style, ts, s.code);
    assert Tail(inner + close) == PrintExpr(cond, 0) + close;
    var code := s.code + ExprCode(pointer, cond);
    TagGoes(pointer, style, inner, ts, s,
            PState(close, code + [Plain(ConditionalJump, 0)], s.ifs + [IfData(Some(|code|), [])], s.loops));
  }

  lemma EndifGoes(pointer: bool, style: Templates.Style, ts: seq<Token>, s: PState, t: PState)
    requires s.rest == Tag(style, [Id("endif")]) + ts
    requires ParseEndif(s.(rest := [Closer(style)] + ts)) == Accept(t) && t.rest == [Closer(style)] + ts
    ensures Goes(pointer, s, t.(rest := ts))
  {
    hide ParseEndif;
    var close := [Closer(style)] + ts;
    assert Tail([Id("endif")] + close) == close;
    TagGoes(pointer, style, [Id("endif")], ts, s, t);
  }

  lemma ElseGoes(pointer: bool, style: Templates.Style, ts: seq<Token>, s: PState, d: IfData)
    requires s.ifs != [] && d == Top(s.ifs) && d.condJump.Some?
    requires s.rest == Tag(style, [Id("else")]) + ts
    ensures Goes(pointer, s, PState(ts, Patch(s.code + [Plain(Jump, 0)], d.condJump.value, |s.code| + 1),
                                    Below(s.ifs) + [IfData(None, d.jumps + [|s.code|])], s.loops))
  {
    hide Patch, ParseOr;
    var close := [Closer(style)] + ts;
    assert Tail([Id("else")] + close) == close;
    TagGoes(pointer, style, [Id("else")], ts, s,
            PState(close, Patch(s.code + [Plain(Jump, 0)], d.condJump.value, |s.code| + 1),
                   Below(s.ifs) + [IfData(None, d.jumps + [|s.code|])], s.loops));
  }

  lemma ElseIfGoes(pointer: bool, style: Templates.Style, cond: Expr, ts: seq<Token>, s: PState, d: IfData)
    requires Printable(cond) && Compiles(cond)
    requires s.ifs != [] && d == Top(s.ifs) && d.condJump.Some? && d.condJump.value < |s.code|
    requires s.rest == Tag(style, [Id("else"), Id("if")] + PrintExpr(cond, 0)) + ts
    ensures var code := Patch(s.code + [Plain(Jump, 0)], d.condJump.value, |s.code| + 1) + ExprCode(pointer, cond);
            Goes(pointer, s, PState(ts, code + [Plain(ConditionalJump, 0)],
                                    Below(s.ifs) + [IfData(Some(|code|), d.jumps + [|s.code|])], s.loops))
  {
    hide ParseOr, ParseStatement, ExprCode, PrintExpr, Compiles, Printable, Goes, Patch, Tag;
    var close := [Closer(style)] + ts;
    var printed := PrintExpr(cond, 0) + close;
    var inner := [Id("else"), Id("if")] + PrintExpr(cond, 0);
    var jumped := Patch(s.code + [Plain(Jump, 0)], d.condJump.value, |s.code| + 1);
    JumpedClosed(s.code, d.condJump.value);
    ConditionParses(pointer, cond, style, ts, jumped);
    assert inner + close == [Id("else"), Id("if")] + printed;
    var code := jumped + ExprCode(pointer, cond);
    ElseIfHead(pointer, printed, s, d, Stream(close, code));
    TagGoes(pointer, style, inner, ts, s,
            PState(close, code + [Plain(ConditionalJump, 0)],
                   Below(s.ifs) + [IfData(Some(|code|), d.jumps + [|s.code|])], s.loops));
  }

  lemma JumpedClosed(code: Code, i: nat)
    ensures Closed(Patch(code + [Plain(Jump, 0)], i, |code| + 1))
  {
  }

  lemma ElseIfHead(pointer: bool, printed: seq<Token>, s: PState, d: IfData, t: Stream)
    requires s.ifs != [] && d == Top(s.ifs) && d.condJump.Some?
    requires ParseOr(pointer, Stream(printed, Patch(s.code + [Plain(Jump, 0)], d.condJump.value, |s.code| + 1))) == Accept(t)
    ensures ParseStatement(pointer, s.(rest := [Id("else"), Id("if")] + printed)) ==
            Accept(PState(t.rest, t.code + [Plain(ConditionalJump, 0)],
                          Below(s.ifs) + [IfData(Some(|t.code|), d.jumps + [|s.code|])], s.loops))
  {
    hide ParseOr, Patch, ParseIf, ParseFor;
    var all := [Id("else"), Id("if")] + printed;
    assert Tail(all) == [Id("if")] + printed;
    assert Tail(Tail(all)) == printed;
  }

  lemma ForGoes(pointer: bool, style: Templates.Style, key: string, item: string, over: Expr, ts: seq<Token>, s: PState)
    requires Printable(over) && Compiles(over) && Closed(s.code)
    requires s.rest == Tag(style, ForHead(key, item) + PrintExpr(over, 0)) + ts
    ensures var code := s.code + ExprCode(pointer, over);
            var start := Bytecode(StartLoop, 0, Pop, if key == "" then Null else String(key), item);
            Goes(pointer, s, PState(ts, code + [start], s.ifs, s.loops + [|code|]))
  {
    hide ParseOr, ExprCode, PrintExpr, Compiles, Printable, Goes, Closed;
    var close := [Closer(style)] + ts;
    var printed := PrintExpr(over, 0) + close;
    var inner := ForHead(key, item) + PrintExpr(over, 0);
    ConditionParses(pointer, over, style, ts, s.code);
    assert inner + close == ForHead(key, item) + printed;
    ForHeadParses(pointer, key, item, printed, s);
    var code := s.code + ExprCode(pointer, over);
    TagGoes(pointer, style, inner, ts, s,
            PState(close, code + [Bytecode(StartLoop, 0, Pop, if key == "" then Null else String(key), item)],
                   s.ifs, s.loops + [|code|]));
  }

  function ForHead(key: string, item: string): seq<Token> {
    if key == "" then [Id("for"), Id(item), Id("in")] else [Id("for"), Id(key), Comma, Id(item), Id("in")]
  }

  lemma ForHeadParses(pointer: bool, key: string, item: string, printed: seq<Token>, s: PState)
    ensures ParseStatement(pointer, s.(rest := ForHead(key, item) + printed)) ==
            ParseForIn(pointer, key, item, s.(rest := [Id("in")] + printed))
    ensures Tail([Id("in")] + printed) == printed
  {
    hide ParseForIn, ParseFor, ParseIf, ParseElse;
    var all := ForHead(key, item) + printed;
    var rest := ForHead(key, item)[1..] + printed;
    assert Tail(all) == rest;
    assert ParseStatement(pointer, s.(rest := all)) == ParseFor(pointer, s.(rest := rest));
    if key == "" {
      ItemHeadParses(pointer, item, printed, s);
    } else {
      EntryHeadParses(pointer, key, item, printed, s);
    }
  }

  lemma ItemHeadParses(pointer: bool, item: string, printed: seq<Token>, s: PState)
    ensures ParseFor(pointer, s.(rest := [Id(item), Id("in")] + printed)) ==
            ParseForIn(pointer, "", item, s.(rest := [Id("in")] + printed))
  {
    hide ParseForIn;
    assert Tail([Id(item), Id("in")] + printed) == [Id("in")] + printed;
  }

  lemma EntryHeadParses(pointer: bool, key: string, item: string, printed: seq<Token>, s: PState)
    ensures ParseFor(pointer, s.(rest := [Id(key), Comma, Id(item), Id("in")] + printed)) ==
            ParseForIn(pointer, key, item, s.(rest := [Id("in")] + printed))
  {
    hide ParseForIn, Tail, Head;
    HeadTail(Id(key), [Comma, Id(item), Id("in")], printed);
    HeadTail(Comma, [Id(item), Id("in")], printed);
    HeadTail(Id(item), [Id("in")], printed);
    assert [Id(key)] + [Comma, Id(item), Id("in")] == [Id(key), Comma, Id(item), Id("in")];
    assert [Comma] + [Id(item), Id("in")] == [Comma, Id(item), Id("in")];
    assert [Id(item)] + [Id("in")] == [Id(item), Id("in")];
  }

  lemma HeadTail(t: Token, ts: seq<Token>, rest: seq<Token>)
    requires !t.Eof?
    ensures Head([t] + ts + rest) == t && Tail([t] + ts + rest) == ts + rest
  {
  }

  lemma EndforGoes(pointer: bool, style: Templates.Style, ts: seq<Token>, s: PState)
    requires s.loops != [] && s.rest == Tag(style, [Id("endfor")]) + ts
    ensures var start := Top(s.loops);
            Goes(pointer, s, s.(rest := ts, loops := Below(s.loops),
                                code := Patch(s.code, start, |s.code|) + [Plain(EndLoop, (start + 1) % ARGS_LIMIT)]))
  {
    hide Patch;
    var start := Top(s.loops);
    var close := [Closer(style)] + ts;
    assert Tail([Id("endfor")] + close) == close;
    TagGoes(pointer, style, [Id("endfor")], ts, s,
            s.(rest := close, loops := Below(s.loops),
               code := Patch(s.code, start, |s.code|) + [Plain(EndLoop, (start + 1) % ARGS_LIMIT)]));
  }

  // ----- Templates -----

  lemma {:induction false} BodyParses(pointer: bool, b: Templates.Body, ts: seq<Token>, s: PState)
    requires PrintableBody(b) && CompilesBody(b) && Closed(s.code)
    requires s.rest == PrintBody(b) + ts && |s.code| + BodySize(pointer, b) < ARGS_LIMIT
    ensures Goes(pointer, s, s.(rest := ts, code := s.code + BodyCode(pointer, b, |s.code|)))
    ensures Closed(s.code + BodyCode(pointer, b, |s.code|))
    decreases b, 2
  {
    hide BodyCode, BodySize, PrintBody, PrintableBody, CompilesBody, NodeCode, NodeSize, Goes, Closed;
    BodyClosed(pointer, b, |s.code|);
    ClosedAppend(s.code, BodyCode(pointer, b, |s.code|));
    if b.Nil? {
      NothingParses(pointer, ts, s);
    } else {
      BodyShape(pointer, b, ts, s);
      var mid := s.(rest := PrintBody(b.rest) + ts, code := s.code + NodeCode(pointer, b.head, |s.code|));
      NodeClosed(pointer, b.head, |s.code|);
      ClosedAppend(s.code, NodeCode(pointer, b.head, |s.code|));
      NodeParses(pointer, b.head, mid.rest, s);
      BodyParses(pointer, b.rest, ts, mid);
      GoesOn(pointer, s, mid, s.(rest := ts, code := s.code + BodyCode(pointer, b, |s.code|)));
    }
  }

  lemma NothingParses(pointer: bool, ts: seq<Token>, s: PState)
    requires s.rest == PrintBody(Templates.Nil) + ts
    ensures Goes(pointer, s, s.(rest := ts, code := s.code + BodyCode(pointer, Templates.Nil, |s.code|)))
  {
    hide ParseInto;
    assert s.(rest := ts, code := s.code + []) == s;
  }

  /** The tokens and the code of a body are those of its first node and of the rest. */
  lemma BodyShape(pointer: bool, b: Templates.Body, ts: seq<Token>, s: PState)
    requires b.Cons? && PrintableBody(b) && CompilesBody(b) && s.rest == PrintBody(b) + ts
    ensures PrintableNode(b.head) && CompilesNode(b.head) && PrintableBody(b.rest) && CompilesBody(b.rest)
    ensures s.rest == PrintNode(b.head) + (PrintBody(b.rest) + ts)
    ensures BodySize(pointer, b) == NodeSize(pointer, b.head) + BodySize(pointer, b.rest)
    ensures var front := s.code + NodeCode(pointer, b.head, |s.code|);
            front + BodyCode(pointer, b.rest, |front|) == s.code + BodyCode(pointer, b, |s.code|)
  {
    hide NodeCode, NodeSize, PrintNode, PrintableNode, CompilesNode;
  }

  lemma {:induction false} NodeParses(pointer: bool, n: Templates.Node, ts: seq<Token>, s: PState)
    requires PrintableNode(n) && CompilesNode(n) && Closed(s.code)
    requires s.rest == PrintNode(n) + ts && |s.code| + NodeSize(pointer, n) < ARGS_LIMIT
    ensures Goes(pointer, s, s.(rest := ts, code := s.code + NodeCode(pointer, n, |s.code|)))
    decreases n, 3
  {
    hide Goes, Closed, PrintExpr, Printable, Compiles, ExprCode, BodyCode, BodySize, ChainCode, ChainSize, LoopCode;
    hide PrintBody, PrintBranches, Tag, CompilesBody, CompilesChain, PrintableBody, PrintableChain, AppendFunction;
    match n
    case Text(text) => TextParses(pointer, text, ts, s);
    case Comment => CommentParses(pointer, ts, s);
    case Print(e) => PrintParses(pointer, e, ts, s);
    case If(open, chain) => IfParses(pointer, open, chain, ts, s);
    case ForItem(open, item, over, body, close) =>
      LoopParses(pointer, open, "", item, over, body, close, ts, s);
    case ForEntry(open, key, item, over, body, close) =>
      LoopParses(pointer, open, key, item, over, body, close, ts, s);
  }

  lemma TextParses(pointer: bool, text: string, ts: seq<Token>, s: PState)
    requires s.rest == [Token.Text(text)] + ts
    ensures Goes(pointer, s, s.(rest := ts, code := s.code + [Plain(PrintText, 0).(str := text)]))
  {
    assert Tail(s.rest) == ts;
    ItemGoes(pointer, s, s.(rest := ts, code := s.code + [Plain(PrintText, 0).(str := text)]));
  }

  lemma CommentParses(pointer: bool, ts: seq<Token>, s: PState)
    requires s.rest == [CommentOpen, CommentClose] + ts
    ensures Goes(pointer, s, s.(rest := ts, code := s.code + []))
  {
    assert Tail(s.rest) == [CommentClose] + ts && Tail(Tail(s.rest)) == ts;
    assert s.code + [] == s.code;
    ItemGoes(pointer, s, s.(rest := ts));
  }

  lemma PrintParses(pointer: bool, e: Expr, ts: seq<Token>, s: PState)
    requires Printable(e) && Compiles(e) && Closed(s.code)
    requires s.rest == [ExpressionOpen] + PrintExpr(e, 0) + [ExpressionClose] + ts
    ensures Goes(pointer, s, s.(rest := ts, code := s.code + AppendFunction(ExprCode(pointer, e), PrintValue, 1)))
  {
    hide ParseOr, ExprCode, PrintExpr, Compiles, Printable, AppendFunction, StartsWithNullaryCall, ParseItem;
    ParsesCompiled(pointer, e, 0, [ExpressionClose] + ts, s.code);
    AppendAfter(s.code, ExprCode(pointer, e), PrintValue, 1);
    PrintItem(pointer, PrintExpr(e, 0), ts, s, Some(s.code + ExprCode(pointer, e)));
    ItemGoes(pointer, s, s.(rest := ts, code := s.code + AppendFunction(ExprCode(pointer, e), PrintValue, 1)));
  }

  lemma PrintItem(pointer: bool, printed: seq<Token>, ts: seq<Token>, s: PState, code: Option<Code>)
    requires s.rest == [ExpressionOpen] + printed + [ExpressionClose] + ts
    requires Emits(pointer, 0, printed, [ExpressionClose] + ts, s.code, code)
    ensures ParseItem(pointer, s) ==
            if code.Some? then Accept(s.(rest := ts, code := AppendFunction(code.value, PrintValue, 1))) else Crashes
  {
    hide ParseOr, ParseStatement, AppendFunction;
    var close := [ExpressionClose] + ts;
    assert Tail(s.rest) == printed + close && Tail(close) == ts;
  }

  lemma {:induction false} LoopParses(pointer: bool, open: Templates.Style, key: string, item: string, over: Expr,
                                      body: Templates.Body, close: Templates.Style, ts: seq<Token>, s: PState)
    requires Printable(over) && Compiles(over) && PrintableBody(body) && CompilesBody(body) && Closed(s.code)
    requires s.rest == Tag(open, ForHead(key, item) + PrintExpr(over, 0)) + PrintBody(body) + Tag(close, [Id("endfor")]) + ts
    requires |s.code| + |ExprCode(pointer, over)| + 1 + BodySize(pointer, body) + 1 < ARGS_LIMIT
    ensures var value := if key == "" then Null else String(key);
            Goes(pointer, s, s.(rest := ts, code := s.code + LoopCode(pointer, value, item, over, body, |s.code|)))
    decreases body, 4
  {
    hide PrintExpr, Printable, Compiles, ExprCode, BodyCode, BodySize, PrintBody, Tag, CompilesBody, PrintableBody, Goes, LoopCode;
    var head := Tag(open, ForHead(key, item) + PrintExpr(over, 0));
    var end := Tag(close, [Id("endfor")]) + ts;
    var inside := PrintBody(body) + end;
    assert s.rest == head + inside;
    ForGoes(pointer, open, key, item, over, inside, s);
    var code := s.code + ExprCode(pointer, over);
    var value := if key == "" then Null else String(key);
    var start := Bytecode(StartLoop, 0, Pop, value, item);
    var s1 := PState(inside, code + [start], s.ifs, s.loops + [|code|]);
    LoopBodyParses(pointer, value, item, over, body, close, ts, s, s1);
    GoesOn(pointer, s, s1, s.(rest := ts, code := s.code + LoopCode(pointer, value, item, over, body, |s.code|)));
  }

  lemma {:induction false} LoopBodyParses(pointer: bool, value: Json, item: string, over: Expr, body: Templates.Body,
                                          close: Templates.Style, ts: seq<Token>, s: PState, s1: PState)
    requires PrintableBody(body) && CompilesBody(body)
    requires |s.code| + |ExprCode(pointer, over)| + 1 + BodySize(pointer, body) + 1 < ARGS_LIMIT
    requires var code := s.code + ExprCode(pointer, over);
             s1 == PState(PrintBody(body) + (Tag(close, [Id("endfor")]) + ts),
                          code + [Bytecode(StartLoop, 0, Pop, value, item)], s.ifs, s.loops + [|code|])
    ensures Goes(pointer, s1, s.(rest := ts, code := s.code + LoopCode(pointer, value, item, over, body, |s.code|)))
    decreases body, 3
  {
    hide ExprCode, BodyCode, BodySize, PrintBody, Tag, CompilesBody, PrintableBody, Goes, Patch, LoopCode, Closed;
    var code := s.code + ExprCode(pointer, over);
    var start := Bytecode(StartLoop, 0, Pop, value, item);
    var end := Tag(close, [Id("endfor")]) + ts;
    StartClosed(code, start);
    BodyParses(pointer, body, end, s1);
    var inner := BodyCode(pointer, body, |code| + 1);
    var s2 := s1.(rest := end, code := code + [start] + inner);
    EndforGoes(pointer, close, ts, s2);
    assert Below(s.loops + [|code|]) == s.loops && Top(s.loops + [|code|]) == |code|;
    LoopPatched(pointer, value, item, over, body, s.code);
    GoesOn(pointer, s1, s2, s.(rest := ts, code := s.code + LoopCode(pointer, value, item, over, body, |s.code|)));
  }

  lemma StartClosed(code: Code, start: Bytecode)
    requires start.op.StartLoop?
    ensures Closed(code + [start])
  {
  }

  /** Patching the loop's start and appending its end completes the loop's code. */
  lemma LoopPatched(pointer: bool, value: Json, item: string, over: Expr, body: Templates.Body, before: Code)
    requires |before| + |ExprCode(pointer, over)| + 1 + BodySize(pointer, body) < ARGS_LIMIT
    ensures var code := before + ExprCode(pointer, over);
            var start := Bytecode(StartLoop, 0, Pop, value, item);
            var all := code + [start] + BodyCode(pointer, body, |code| + 1);
            Patch(all, |code|, |all|) + [Plain(EndLoop, (|code| + 1) % ARGS_LIMIT)] ==
            before + LoopCode(pointer, value, item, over, body, |before|)
  {
    hide ExprCode, BodyCode, BodySize, Patch, LoopCode;
    var code := before + ExprCode(pointer, over);
    var inner := BodyCode(pointer, body, |code| + 1);
    PatchAt(code, Bytecode(StartLoop, 0, Pop, value, item), inner, |code| + 1 + |inner|);
    LoopCodeIs(pointer, value, item, over, body, before);
  }

  lemma LoopCodeIs(pointer: bool, value: Json, item: string, over: Expr, body: Templates.Body, before: Code)
    ensures var code := before + ExprCode(pointer, over);
            var last := |code| + 1 + BodySize(pointer, body);
            before + LoopCode(pointer, value, item, over, body, |before|) ==
            code + [Bytecode(StartLoop, last, Pop, value, item)] + BodyCode(pointer, body, |code| + 1)
            + [Plain(EndLoop, |code| + 1)]
  {
    hide ExprCode, BodyCode, BodySize;
  }

  lemma {:induction false} IfParses(pointer: bool, open: Templates.Style, c: Templates.Chain, ts: seq<Token>, s: PState)
    requires PrintableChain(c) && CompilesChain(c) && Closed(s.code)
    requires s.rest == Tag(open, [Id("if")] + PrintExpr(c.cond, 0)) + PrintBranches(c) + ts
    requires |s.code| + ChainSize(pointer, c) < ARGS_LIMIT
    ensures Goes(pointer, s, s.(rest := ts,
                 code := s.code + ChainCode(pointer, c, |s.code|, |s.code| + ChainSize(pointer, c))))
    decreases c, 5
  {
    hide PrintExpr, Printable, Compiles, ExprCode, BodyCode, BodySize, PrintBranches, Tag, CompilesBody, PrintableBody, ParseInto;
    hide BranchCode, ChainCode, PrintableTail, CompilesTail;
    var rest := PrintBranches(c) + ts;
    assert s.rest == Tag(open, [Id("if")] + PrintExpr(c.cond, 0)) + rest;
    IfGoes(pointer, open, c.cond, rest, s);
    var code := s.code + ExprCode(pointer, c.cond);
    var end := |s.code| + ChainSize(pointer, c);
    CompilesParts(c);
    BranchesParse(pointer, c, ts, code, s.ifs, [], s.loops, end);
    ChainCodeIs(pointer, c, s.code, end);
  }

  lemma CompilesParts(c: Templates.Chain)
    requires CompilesChain(c)
    ensures Compiles(c.cond) && CompilesBody(c.yes) && CompilesTail(c.tail)
  {
  }

  /** A chain's code after its first condition; `at` is the address of the conditional jump. */
  function BranchCode(pointer: bool, c: Templates.Chain, at: nat, end: nat): Code {
    var next := at + 1 + BodySize(pointer, c.yes);
    [Plain(ConditionalJump, if c.tail.EndIf? then end else next + 1)]
    + BodyCode(pointer, c.yes, at + 1)
    + TailCode(pointer, c.tail, next, end)
  }

  lemma ChainCodeIs(pointer: bool, c: Templates.Chain, before: Code, end: nat)
    ensures var code := before + ExprCode(pointer, c.cond);
            before + ChainCode(pointer, c, |before|, end) == code + BranchCode(pointer, c, |code|, end)
  {
    hide ExprCode, BodyCode, BodySize, TailCode;
  }

  /**
   * From behind the jump of a condition to the end of the whole chain. The pending jump at `|code|`
   * and the `jumps` of earlier branches get their targets on the way.
   */
  lemma {:induction false} BranchesParse(pointer: bool, c: Templates.Chain, ts: seq<Token>, code: Code,
                                         ifs: seq<IfData>, jumps: seq<nat>, loops: seq<nat>, end: nat)
    requires PrintableChain(c) && CompilesBody(c.yes) && CompilesTail(c.tail)
    requires end == |code| + 1 + BodySize(pointer, c.yes) + TailSize(pointer, c.tail) < ARGS_LIMIT
    requires forall j :: j in jumps ==> j < |code|
    ensures Goes(pointer,
                 PState(PrintBranches(c) + ts, code + [Plain(ConditionalJump, 0)], ifs + [IfData(Some(|code|), jumps)], loops),
                 PState(ts, PatchAll(code, jumps, end) + BranchCode(pointer, c, |code|, end), ifs, loops))
    decreases c, 4
  {
    hide Goes, CompilesBody, CompilesTail, PatchAll, Patch, BodyCode, BodySize, PrintBody, PrintableBody, PrintTail, TailCode, TailSize;
    var cj := Plain(ConditionalJump, 0);
    var open := ifs + [IfData(Some(|code|), jumps)];
    var yes := BodyCode(pointer, c.yes, |code| + 1);
    var rest := PrintTail(c.tail) + ts;
    var s := PState(PrintBranches(c) + ts, code + [cj], open, loops);
    assert s.rest == PrintBody(c.yes) + rest;
    BodyParses(pointer, c.yes, rest, s);
    var t := PState(rest, code + [cj] + yes, open, loops);
    TailParses(pointer, c.tail, ts, code, yes, ifs, jumps, loops, end);
    GoesOn(pointer, s, t, PState(ts, PatchAll(code, jumps, end) + [cj.(args := if c.tail.EndIf? then end else |t.code| + 1)]
                                     + yes + TailCode(pointer, c.tail, |t.code|, end), ifs, loops));
    BranchCodeIs(pointer, c, PatchAll(code, jumps, end), |code|, end);
  }

  lemma GoesOn(pointer: bool, s: PState, t: PState, u: PState)
    requires Goes(pointer, s, t) && Goes(pointer, t, u)
    ensures Goes(pointer, s, u)
  {
    hide ParseInto;
  }

  lemma BranchCodeIs(pointer: bool, c: Templates.Chain, before: Code, at: nat, end: nat)
    ensures var next := at + 1 + BodySize(pointer, c.yes);
            before + BranchCode(pointer, c, at, end) ==
            before + [Plain(ConditionalJump, if c.tail.EndIf? then end else next + 1)]
            + BodyCode(pointer, c.yes, at + 1) + TailCode(pointer, c.tail, next, end)
  {
    hide BodyCode, BodySize, TailCode;
  }

  /** `else`, `else if` or `endif` behind the branch `yes`, whose conditional jump is at `|code|`. */
  lemma {:induction false} TailParses(pointer: bool, t: Templates.Tail, ts: seq<Token>, code: Code, yes: Code,
                                      ifs: seq<IfData>, jumps: seq<nat>, loops: seq<nat>, end: nat)
    requires PrintableTail(t) && CompilesTail(t)
    requires end == |code| + 1 + |yes| + TailSize(pointer, t) < ARGS_LIMIT
    requires forall j :: j in jumps ==> j < |code|
    requires Closed(code + [Plain(ConditionalJump, 0)] + yes)
    ensures var cj := Plain(ConditionalJump, 0);
            var at := |code| + 1 + |yes|;
            Goes(pointer,
                 PState(PrintTail(t) + ts, code + [cj] + yes, ifs + [IfData(Some(|code|), jumps)], loops),
                 PState(ts, PatchAll(code, jumps, end) + [cj.(args := if t.EndIf? then end else at + 1)] + yes
                            + TailCode(pointer, t, at, end), ifs, loops))
    decreases t, 6
  {
    hide PatchAll, Goes, Tag, BodyCode, BodySize, PrintBody, PrintBranches, PrintExpr, PrintableBody, PrintableChain;
    hide CompilesBody, CompilesChain, ChainCode, ChainSize, Printable;
    match t
    case EndIf(close) => EndIfParses(pointer, close, ts, code, yes, ifs, jumps, loops);
    case Else(open, no, close) => ElseParses(pointer, open, no, close, ts, code, yes, ifs, jumps, loops, end);
    case ElseIf(open, next) => ElseIfParses(pointer, open, next, ts, code, yes, ifs, jumps, loops, end);
  }

  lemma EndIfParses(pointer: bool, close: Templates.Style, ts: seq<Token>, code: Code, yes: Code,
                    ifs: seq<IfData>, jumps: seq<nat>, loops: seq<nat>)
    requires |code| + 1 + |yes| < ARGS_LIMIT
    requires forall j :: j in jumps ==> j < |code|
    ensures var cj := Plain(ConditionalJump, 0);
            var end := |code| + 1 + |yes|;
            Goes(pointer,
                 PState(Tag(close, [Id("endif")]) + ts, code + [cj] + yes, ifs + [IfData(Some(|code|), jumps)], loops),
                 PState(ts, PatchAll(code, jumps, end) + [cj.(args := end)] + yes + [], ifs, loops))
  {
    hide PatchAll, Patch, ParseInto, Tag;
    var cj := Plain(ConditionalJump, 0);
    var end := |code| + 1 + |yes|;
    var d := IfData(Some(|code|), jumps);
    var s := PState(Tag(close, [Id("endif")]) + ts, code + [cj] + yes, ifs + [d], loops);
    PatchAt(code, cj, yes, end);
    var tail := [cj.(args := end)] + yes;
    assert code + [cj.(args := end)] + yes == code + tail;
    PatchAllPrefix(code, tail, jumps, end);
    assert Below(ifs + [d]) == ifs && Top(ifs + [d]) == d;
    var patched := PatchAll(code, jumps, end) + tail;
    assert PatchAll(code, jumps, end) + [cj.(args := end)] + yes + [] == patched;
    EndifGoes(pointer, close, ts, s, PState([Closer(close)] + ts, patched, ifs, loops));
  }

  lemma {:induction false} ElseParses(pointer: bool, open: Templates.Style, no: Templates.Body, close: Templates.Style,
                                      ts: seq<Token>, code: Code, yes: Code,
                                      ifs: seq<IfData>, jumps: seq<nat>, loops: seq<nat>, end: nat)
    requires PrintableBody(no) && CompilesBody(no)
    requires end == |code| + 1 + |yes| + 1 + BodySize(pointer, no) < ARGS_LIMIT
    requires forall j :: j in jumps ==> j < |code|
    ensures var cj := Plain(ConditionalJump, 0);
            var at := |code| + 1 + |yes|;
            Goes(pointer,
                 PState(Tag(open, [Id("else")]) + PrintBody(no) + Tag(close, [Id("endif")]) + ts,
                        code + [cj] + yes, ifs + [IfData(Some(|code|), jumps)], loops),
                 PState(ts, PatchAll(code, jumps, end) + [cj.(args := at + 1)] + yes
                            + ([Plain(Jump, end)] + BodyCode(pointer, no, at + 1)), ifs, loops))
    decreases no, 4
  {
    hide PatchAll, Goes, Tag, BodyCode, BodySize, PrintBody, PrintableBody, CompilesBody, Below, Top;
    var cj, jump := Plain(ConditionalJump, 0), Plain(Jump, 0);
    var at := |code| + 1 + |yes|;
    var last := Tag(close, [Id("endif")]) + ts;
    var rest := PrintBody(no) + last;
    assert Tag(open, [Id("else")]) + PrintBody(no) + Tag(close, [Id("endif")]) + ts == Tag(open, [Id("else")]) + rest;
    var s := PState(Tag(open, [Id("else")]) + rest, code + [cj] + yes, ifs + [IfData(Some(|code|), jumps)], loops);
    var mid := [cj.(args := at + 1)] + yes;
    var s1 := PState(rest, code + mid + [jump], ifs + [IfData(None, jumps + [at])], loops);
    ElseTag(pointer, open, rest, code, yes, ifs, jumps, loops);
    BodyParses(pointer, no, last, s1);
    var inner := BodyCode(pointer, no, at + 1);
    var s2 := s1.(rest := last, code := code + mid + [jump] + inner);
    GoesOn(pointer, s, s1, s2);
    PatchJumps(code, mid, jump, inner, jumps, end);
    FinalEndif(pointer, close, ts, s2, ifs, jumps + [at], end);
    var a := PatchAll(code, jumps, end);
    assert a + mid + [jump.(args := end)] + inner == a + [cj.(args := at + 1)] + yes + ([Plain(Jump, end)] + inner);
    GoesOn(pointer, s, s2, PState(ts, a + mid + [jump.(args := end)] + inner, ifs, loops));
  }

  lemma ElseTag(pointer: bool, open: Templates.Style, rest: seq<Token>, code: Code, yes: Code,
                ifs: seq<IfData>, jumps: seq<nat>, loops: seq<nat>)
    requires |code| + 1 + |yes| + 1 < ARGS_LIMIT
    ensures var cj, jump := Plain(ConditionalJump, 0), Plain(Jump, 0);
            var at := |code| + 1 + |yes|;
            Goes(pointer,
                 PState(Tag(open, [Id("else")]) + rest, code + [cj] + yes, ifs + [IfData(Some(|code|), jumps)], loops),
                 PState(rest, code + ([cj.(args := at + 1)] + yes) + [jump], ifs + [IfData(None, jumps + [at])], loops))
  {
    hide Goes, Tag, Patch;
    var d := IfData(Some(|code|), jumps);
    assert Below(ifs + [d]) == ifs;
    JumpedCode(code, yes, |code| + 1 + |yes|);
    ElseGoes(pointer, open, rest,
             PState(Tag(open, [Id("else")]) + rest, code + [Plain(ConditionalJump, 0)] + yes, ifs + [d], loops), d);
  }

  /** `endif` after a plain `else`. */
  lemma FinalEndif(pointer: bool, close: Templates.Style, ts: seq<Token>, s: PState, ifs: seq<IfData>, jumps: seq<nat>, end: nat)
    requires s.ifs == ifs + [IfData(None, jumps)] && end == |s.code|
    requires s.rest == Tag(close, [Id("endif")]) + ts
    ensures Goes(pointer, s, PState(ts, PatchAll(s.code, jumps, end), ifs, s.loops))
  {
    hide PatchAll, Goes, Tag;
    assert Below(s.ifs) == ifs;
    EndifGoes(pointer, close, ts, s, PState([Closer(close)] + ts, PatchAll(s.code, jumps, end), ifs, s.loops));
  }

  /** The code right after `else`: the pending jump of the condition leads behind the new jump. */
  lemma JumpedCode(code: Code, yes: Code, at: nat)
    requires at == |code| + 1 + |yes| && at + 1 < ARGS_LIMIT
    ensures var cj, jump := Plain(ConditionalJump, 0), Plain(Jump, 0);
            Patch(code + [cj] + yes + [jump], |code|, at + 1) == code + ([cj.(args := at + 1)] + yes) + [jump]
  {
    var cj, jump := Plain(ConditionalJump, 0), Plain(Jump, 0);
    assert code + [cj] + yes + [jump] == code + [cj] + (yes + [jump]);
    PatchAt(code, cj, yes + [jump], at + 1);
  }

  lemma {:induction false} ElseIfParses(pointer: bool, open: Templates.Style, next: Templates.Chain,
                                        ts: seq<Token>, code: Code, yes: Code,
                                        ifs: seq<IfData>, jumps: seq<nat>, loops: seq<nat>, end: nat)
    requires PrintableChain(next) && CompilesChain(next)
    requires end == |code| + 1 + |yes| + 1 + ChainSize(pointer, next) < ARGS_LIMIT
    requires forall j :: j in jumps ==> j < |code|
    ensures var cj := Plain(ConditionalJump, 0);
            var at := |code| + 1 + |yes|;
            Goes(pointer,
                 PState(Tag(open, [Id("else"), Id("if")] + PrintExpr(next.cond, 0)) + PrintBranches(next) + ts,
                        code + [cj] + yes, ifs + [IfData(Some(|code|), jumps)], loops),
                 PState(ts, PatchAll(code, jumps, end) + [cj.(args := at + 1)] + yes
                            + ([Plain(Jump, end)] + ChainCode(pointer, next, at + 1, end)), ifs, loops))
    decreases next, 5
  {
    hide PatchAll, Patch, ParseInto, Tag, BodyCode, BodySize, PrintBranches, PrintableBody, CompilesBody, CompilesTail, ExprCode;
    hide PrintExpr, Printable, Compiles, ChainCode, BranchCode;
    var cj, jump := Plain(ConditionalJump, 0), Plain(Jump, 0);
    var at := |code| + 1 + |yes|;
    var d := IfData(Some(|code|), jumps);
    var head := Tag(open, [Id("else"), Id("if")] + PrintExpr(next.cond, 0));
    var rest := PrintBranches(next) + ts;
    var s := PState(head + PrintBranches(next) + ts, code + [cj] + yes, ifs + [d], loops);
    assert s.rest == head + rest;
    assert Below(ifs + [d]) == ifs;
    CompilesParts(next);
    ElseIfGoes(pointer, open, next.cond, rest, s, d);
    var mid := [cj.(args := at + 1)] + yes;
    JumpedCode(code, yes, at);
    var ec := ExprCode(pointer, next.cond);
    var before := code + mid + [jump] + ec;
    BranchesParse(pointer, next, ts, before, ifs, jumps + [at], loops, end);
    PatchJumps(code, mid, jump, ec, jumps, end);
    var patched := PatchAll(code, jumps, end) + mid + [jump.(args := end)];
    ChainAt(pointer, next, patched, |patched|, end);
    assert PatchAll(code, jumps, end) + [cj.(args := at + 1)] + yes
           + ([Plain(Jump, end)] + ChainCode(pointer, next, at + 1, end)) == patched + ChainCode(pointer, next, at + 1, end);
  }

  lemma ChainAt(pointer: bool, c: Templates.Chain, before: Code, at: nat, end: nat)
    requires at == |before|
    ensures before + ChainCode(pointer, c, at, end) ==
            before + ExprCode(pointer, c.cond) + BranchCode(pointer, c, at + |ExprCode(pointer, c.cond)|, end)
  {
    ChainCodeIs(pointer, c, before, end);
  }

  /** Printing a template and parsing the tokens gives exactly its code, with nothing left open. */
  lemma {:induction false} ParsesTemplate(pointer: bool, b: Templates.Body)
    requires PrintableBody(b) && CompilesBody(b) && BodySize(pointer, b) < 0x4000_0000
    ensures ParseInto(pointer, PState(PrintBody(b), [], [], [])) == Accept(PState([], BodyCode(pointer, b, 0), [], []))
  {
    hide BodyCode, BodySize, PrintBody, CompilesBody, PrintableBody;
    var s := PState(PrintBody(b), [], [], []);
    assert PrintBody(b) + [] == PrintBody(b);
    assert [] + BodyCode(pointer, b, 0) == BodyCode(pointer, b, 0);
    BodyParses(pointer, b, [], s);
  }
}
