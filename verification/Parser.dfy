/** What the lexer hands to the parser. A number or string literal is one token with its JSON value. */
module Tokens {
  import opened Options
  import opened Json

  datatype Token =
    | Text(text: string)
    | StatementOpen | StatementClose
    | LineStatementOpen | LineStatementClose
    | ExpressionOpen | ExpressionClose
    | CommentOpen | CommentClose
    | Id(name: string)
    | Literal(value: Option<Json>)  // None: `json::parse` rejects the text
    | Comma | Colon | LeftParen | RightParen | RightBracket | RightBrace
    | Equal | GreaterThan | GreaterEqual | LessThan | LessEqual | NotEqual
    | Unknown | Eof

  /** The current token; past the end the lexer keeps answering Eof. */
  function Head(ts: seq<Token>): Token {
    if ts == [] then Eof else ts[0]
  }

  function Tail(ts: seq<Token>): seq<Token> {
    if ts == [] || ts[0].Eof? then ts else ts[1..]
  }
}

/** The one-pass compiler: what each parsing function does to the token stream and the code. */
module ParserSpec {
  import opened Options
  import opened Json
  import opened Bytecodes
  import opened Compiler
  import opened Tokens

  /**
   * `Accept` and `Decline` are the parsing functions' true and false results, with the state they
   * leave; `Rejects` is a thrown parser error; `Crashes` is undefined behaviour.
   */
  datatype Outcome<+S> = Accept(s: S) | Decline(s: S) | Rejects | Crashes

  /** What parsing an expression reads and writes. */
  datatype Stream = Stream(rest: seq<Token>, code: Code)

  function Advance(s: Stream): Stream { s.(rest := Tail(s.rest)) }

  type ExprOutcome = Outcome<Stream>

  predicate Consumes(s: Stream, o: ExprOutcome) {
    match o
    case Accept(t) => |t.rest| < |s.rest|
    case Decline(t) => |t.rest| <= |s.rest|
    case _ => true
  }

  function ParseOr(pointer: bool, s: Stream): (o: ExprOutcome)
    ensures Consumes(s, o)
    decreases |s.rest|, 5
  {
    var a := ParseAnd(pointer, s);
    if !a.Accept? || Head(a.s.rest) != Id("or") then a
    else
      var b := ParseAnd(pointer, Advance(a.s));
      if b.Accept? then Accept(b.s.(code := AppendFunction(b.s.code, Or, 2))) else b
  }

  function ParseAnd(pointer: bool, s: Stream): (o: ExprOutcome)
    ensures Consumes(s, o)
    decreases |s.rest|, 4
  {
    var a := ParseNot(pointer, s);
    if !a.Accept? || Head(a.s.rest) != Id("and") then a
    else
      var b := ParseNot(pointer, Advance(a.s));
      if b.Accept? then Accept(b.s.(code := AppendFunction(b.s.code, And, 2))) else b
  }

  function ParseNot(pointer: bool, s: Stream): (o: ExprOutcome)
    ensures Consumes(s, o)
    decreases |s.rest|, 3
  {
    if Head(s.rest) == Id("not") then
      var a := ParseNot(pointer, Advance(s));
      if a.Accept? then Accept(a.s.(code := AppendFunction(a.s.code, Not, 1))) else a
    else ParseComparison(pointer, s)
  }

  /** The operator of a comparison token, `Nop` for any other token. */
  function ComparisonOp(t: Token): Op {
    match t
    case Id(name) => if name == "in" then In else Nop
    case Equal => Op.Equal
    case GreaterThan => Greater
    case LessThan => Less
    case LessEqual => Op.LessEqual
    case GreaterEqual => Op.GreaterEqual
    case NotEqual => Different
    case _ => Nop
  }

  function ParseComparison(pointer: bool, s: Stream): (o: ExprOutcome)
    ensures Consumes(s, o)
    decreases |s.rest|, 2
  {
    var a := ParseDatum(pointer, s);
    if !a.Accept? || ComparisonOp(Head(a.s.rest)).Nop? then a
    else
      var b := ParseDatum(pointer, Advance(a.s));
      if b.Accept? then Accept(b.s.(code := AppendFunction(b.s.code, ComparisonOp(Head(a.s.rest)), 2))) else b
  }

  /** `true`, `false` and `null` are JSON literals. */
  function Keyword(name: string): Option<Json> {
    if name == "true" then Some(Bool(true))
    else if name == "false" then Some(Bool(false))
    else if name == "null" then Some(Null)
    else None
  }

  function ParseDatum(pointer: bool, s: Stream): (o: ExprOutcome)
    ensures Consumes(s, o)
    decreases |s.rest|, 1
  {
    var next := Advance(s);
    match Head(s.rest)
    case LeftParen =>
      (match ParseOr(pointer, next)
       case Accept(t) => if Head(t.rest).RightParen? then Accept(Advance(t)) else Rejects
       case other => other)
    case Id(name) =>
      if Head(next.rest).LeftParen? then
        var inside := Advance(next);
        if Head(inside.rest).RightParen? then FinishCall(name, 0, Advance(inside))
        else
          (match ParseArgs(pointer, inside, 0)
           case Accept((t, n)) => FinishCall(name, n, t)
           case Decline(_) => Rejects
           case Rejects => Rejects
           case Crashes => Crashes)
      else
        (match Keyword(name)
         case Some(v) => Accept(next.(code := s.code + [PushLiteral(v)]))
         case None => Accept(next.(code := s.code + [PushLookup(pointer, name)])))
    case Literal(value) =>
      (match value
       case Some(v) => Accept(next.(code := s.code + [PushLiteral(v)]))
       case None => Rejects)
    case Comma | Colon | RightBracket | RightBrace => Rejects
    case _ => Decline(s)
  }

  /** The arguments after `(`, up to and including `)`; `n` have been parsed already. */
  function ParseArgs(pointer: bool, s: Stream, n: nat): (o: Outcome<(Stream, nat)>)
    ensures o.Accept? ==> |o.s.0.rest| < |s.rest|
    decreases |s.rest|, 6
  {
    match ParseOr(pointer, s)
    case Accept(t) =>
      if Head(t.rest).RightParen? then Accept((Advance(t), n + 1))
      else if Head(t.rest).Comma? then ParseArgs(pointer, Advance(t), n + 1)
      else Rejects
    case Decline(_) => Rejects
    case Rejects => Rejects
    case Crashes => Crashes
  }

  /** A call whose `n` arguments have been compiled. */
  function FinishCall(name: string, n: nat, s: Stream): (o: ExprOutcome)
    ensures o.Accept? ==> o.s.rest == s.rest
    ensures !o.Decline?
  {
    var op := FindBuiltin(name, n);
    if op.Nop? then Accept(s.(code := AppendCallback(s.code, name, n)))
    else if !op.Default? then Accept(s.(code := AppendFunction(s.code, op, n)))
    else if |s.code| < 2 then Crashes
    else Accept(s.(code := AppendFunction(SwapLastTwo(s.code), op, n)))
  }

  // ----- Statements -----

  /** An open `if`: its pending conditional jump and the jumps to its end. */
  datatype IfData = IfData(condJump: Option<nat>, jumps: seq<nat>)

  datatype PState = PState(rest: seq<Token>, code: Code, ifs: seq<IfData>, loops: seq<nat>) {
    function Expr(): Stream { Stream(rest, code) }
    function With(s: Stream): PState { this.(rest := s.rest, code := s.code) }
    function Skip(): PState { this.(rest := Tail(rest)) }
  }

  function Patch(code: Code, i: nat, target: nat): (r: Code)
    ensures |r| == |code|
  {
    if i < |code| then code[i := code[i].(args := target % ARGS_LIMIT)] else code
  }

  function PatchAll(code: Code, jumps: seq<nat>, target: nat): (r: Code)
    ensures |r| == |code|
    decreases |jumps|
  {
    if jumps == [] then code else PatchAll(Patch(code, jumps[0], target), jumps[1..], target)
  }

  function Top<T>(s: seq<T>): T
    requires s != []
  { s[|s| - 1] }

  function Below<T>(s: seq<T>): seq<T>
    requires s != []
  { s[..|s| - 1] }

  type Outcome' = Outcome<PState>

  predicate Progress(st: PState, o: Outcome') {
    o.Accept? || o.Decline? ==> |o.s.rest| <= |st.rest|
  }

  function ParseStatement(pointer: bool, st: PState): (o: Outcome')
    ensures Progress(st, o)
  {
    var next := st.Skip();
    match Head(st.rest)
    case Id(name) =>
      if name == "if" then ParseIf(pointer, next)
      else if name == "endif" then ParseEndif(next)
      else if name == "else" then ParseElse(pointer, next)
      else if name == "for" then ParseFor(pointer, next)
      else if name == "endfor" then ParseEndfor(next)
      else Decline(st)
    case _ => Decline(st)
  }

  function ParseIf(pointer: bool, st: PState): (o: Outcome')
    ensures Progress(st, o)
  {
    match ParseOr(pointer, st.Expr())
    case Accept(s) =>
      Accept(st.With(s).(code := s.code + [Plain(ConditionalJump, 0)], ifs := st.ifs + [IfData(Some(|s.code|), [])]))
    case Decline(s) => Decline(st.With(s))
    case Rejects => Rejects
    case Crashes => Crashes
  }

  function ParseEndif(st: PState): (o: Outcome')
    ensures Progress(st, o)
  {
    if st.ifs == [] then Rejects
    else
      var d := Top(st.ifs);
      var code := if d.condJump.Some? then Patch(st.code, d.condJump.value, |st.code|) else st.code;
      Accept(st.(code := PatchAll(code, d.jumps, |st.code|), ifs := Below(st.ifs)))
  }

  /** After a plain `else` there is no pending conditional jump: a second one writes out of bounds. */
  function ParseElse(pointer: bool, st: PState): (o: Outcome')
    ensures Progress(st, o)
  {
    if st.ifs == [] then Rejects
    else
      var d := Top(st.ifs);
      if d.condJump.None? then Crashes
      else
        var at := |st.code|;
        var code := Patch(st.code + [Plain(Jump, 0)], d.condJump.value, at + 1);
        var jumps := d.jumps + [at];
        var plain := st.(code := code, ifs := Below(st.ifs) + [IfData(None, jumps)]);
        if Head(st.rest) != Id("if") then Accept(plain)
        else match ParseOr(pointer, Stream(Tail(st.rest), code))
          case Accept(s) =>
            Accept(plain.(rest := s.rest, code := s.code + [Plain(ConditionalJump, 0)],
                          ifs := Below(st.ifs) + [IfData(Some(|s.code|), jumps)]))
          case Decline(s) => Decline(plain.With(s))
          case Rejects => Rejects
          case Crashes => Crashes
  }

  /** An empty key stands for a loop without key. */
  function ParseFor(pointer: bool, st: PState): (o: Outcome')
    ensures Progress(st, o)
  {
    if !Head(st.rest).Id? then Rejects
    else
      var first := Head(st.rest).name;
      var ts := Tail(st.rest);
      if Head(ts).Comma? then
        var ts := Tail(ts);
        if !Head(ts).Id? then Rejects
        else ParseForIn(pointer, first, Head(ts).name, st.(rest := Tail(ts)))
      else ParseForIn(pointer, "", first, st.(rest := ts))
  }

  function ParseForIn(pointer: bool, key: string, item: string, st: PState): (o: Outcome')
    ensures Progress(st, o)
  {
    if Head(st.rest) != Id("in") then Rejects
    else match ParseOr(pointer, st.Skip().Expr())
      case Accept(s) =>
        var start := Bytecode(StartLoop, 0, Pop, if key == "" then Null else String(key), item);
        Accept(st.With(s).(code := s.code + [start], loops := st.loops + [|s.code|]))
      case Decline(s) => Decline(st.With(s))
      case Rejects => Rejects
      case Crashes => Crashes
  }

  function ParseEndfor(st: PState): (o: Outcome')
    ensures Progress(st, o)
  {
    if st.loops == [] then Rejects
    else
      var start := Top(st.loops);
      var code := Patch(st.code, start, |st.code|) + [Plain(EndLoop, (start + 1) % ARGS_LIMIT)];
      Accept(st.(code := code, loops := Below(st.loops)))
  }

  /** One turn of the loop of `parse_into`; a declined expression or block statement is an error. */
  function ParseItem(pointer: bool, st: PState): (o: Outcome')
    requires !Head(st.rest).Eof?
    ensures o.Accept? ==> |o.s.rest| < |st.rest|
    ensures !o.Decline?
  {
    var next := st.Skip();
    match Head(st.rest)
    case Text(text) => Accept(next.(code := st.code + [Plain(PrintText, 0).(str := text)]))
    case StatementOpen =>
      (match ParseStatement(pointer, next)
       case Accept(s) => if Head(s.rest).StatementClose? then Accept(s.Skip()) else Rejects
       case Decline(_) => Rejects
       case Rejects => Rejects
       case Crashes => Crashes)
    case LineStatementOpen =>
      // the result of parse_statement is not looked at here
      var o := ParseStatement(pointer, next);
      if o.Rejects? || o.Crashes? then o
      else if Head(o.s.rest).LineStatementClose? || Head(o.s.rest).Eof? then Accept(o.s.Skip())
      else Rejects
    case ExpressionOpen =>
      (match ParseOr(pointer, next.Expr())
       case Accept(s) =>
         if Head(s.rest).ExpressionClose? then
           Accept(st.With(s).(code := AppendFunction(s.code, PrintValue, 1)).Skip())
         else Rejects
       case Decline(_) => Rejects
       case Rejects => Rejects
       case Crashes => Crashes)
    case CommentOpen => if Head(next.rest).CommentClose? then Accept(next.Skip()) else Rejects
    case _ => Rejects
  }

  /** `parse_into`: items until the end of input, where no `if` and no `for` may be open. */
  function ParseInto(pointer: bool, st: PState): Outcome'
    decreases |st.rest|
  {
    if Head(st.rest).Eof? then
      if st.ifs != [] || st.loops != [] then Rejects else Accept(st)
    else
      var o := ParseItem(pointer, st);
      if o.Accept? then ParseInto(pointer, o.s) else o
  }
}

/** The parser object: it consumes tokens, appends to the code and patches it. */
module TemplateParser {
  import opened Options
  import opened Json
  import opened Bytecodes
  import opened Compiler
  import opened Tokens
  import opened ParserSpec

  /** Result of a parsing method: true, false, an exception, or undefined behaviour. */
  datatype Verdict = Matched | NoMatch | Rejected | Crashed

  class Parser {
    const pointer: bool
    var rest: seq<Token>
    var code: Code
    var ifStack: seq<IfData>
    var loopStack: seq<nat>

    constructor (pointer: bool, tokens: seq<Token>)
      ensures this.pointer == pointer && rest == tokens && code == [] && ifStack == [] && loopStack == []
    {
      this.pointer := pointer;
      rest, code, ifStack, loopStack := tokens, [], [], [];
    }

    ghost predicate Answers(v: Verdict, o: ExprOutcome)
      reads this`rest, this`code
    {
      match o
      case Accept(s) => v.Matched? && s == Stream(rest, code)
      case Decline(s) => v.NoMatch? && s == Stream(rest, code)
      case Rejects => v.Rejected?
      case Crashes => v.Crashed?
    }

    ghost predicate AnswersStatement(v: Verdict, o: Outcome')
      reads this
    {
      match o
      case Accept(s) => v.Matched? && s == PState(rest, code, ifStack, loopStack)
      case Decline(s) => v.NoMatch? && s == PState(rest, code, ifStack, loopStack)
      case Rejects => v.Rejected?
      case Crashes => v.Crashed?
    }

    method GetNextToken()
      modifies this`rest
      ensures rest == Tail(old(rest))
    {
      if rest != [] && !rest[0].Eof? { rest := rest[1..]; }
    }

    method ParseExpression() returns (v: Verdict)
      modifies this`rest, this`code
      ensures Answers(v, ParseOr(pointer, old(Stream(rest, code))))
      decreases |rest|, 5
    {
      v := ParseExpressionAnd();
      if !v.Matched? || Head(rest) != Id("or") { return; }
      GetNextToken();
      v := ParseExpressionAnd();
      if !v.Matched? { return; }
      EmitFunction(Or, 2);
    }

    method ParseExpressionAnd() returns (v: Verdict)
      modifies this`rest, this`code
      ensures Answers(v, ParseAnd(pointer, old(Stream(rest, code))))
      decreases |rest|, 4
    {
      v := ParseExpressionNot();
      if !v.Matched? || Head(rest) != Id("and") { return; }
      GetNextToken();
      v := ParseExpressionNot();
      if !v.Matched? { return; }
      EmitFunction(And, 2);
    }

    method ParseExpressionNot() returns (v: Verdict)
      modifies this`rest, this`code
      ensures Answers(v, ParseNot(pointer, old(Stream(rest, code))))
      decreases |rest|, 3
    {
      if Head(rest) == Id("not") {
        GetNextToken();
        v := ParseExpressionNot();
        if !v.Matched? { return; }
        EmitFunction(Not, 1);
      } else {
        v := ParseExpressionComparison();
      }
    }

    method ParseExpressionComparison() returns (v: Verdict)
      modifies this`rest, this`code
      ensures Answers(v, ParseComparison(pointer, old(Stream(rest, code))))
      decreases |rest|, 2
    {
      v := ParseExpressionDatum();
      if !v.Matched? { return; }
      var op := ComparisonOp(Head(rest));
      if op.Nop? { return; }
      GetNextToken();
      v := ParseExpressionDatum();
      if !v.Matched? { return; }
      EmitFunction(op, 2);
    }

    method ParseExpressionDatum() returns (v: Verdict)
      modifies this`rest, this`code
      ensures Answers(v, ParseDatum(pointer, old(Stream(rest, code))))
      decreases |rest|, 1
    {
      match Head(rest) {
        case LeftParen =>
          GetNextToken();
          v := ParseExpression();
          if !v.Matched? { return; }
          if !Head(rest).RightParen? { return Rejected; }
          GetNextToken();
        case Id(name) =>
          if Head(Tail(rest)).LeftParen? {  // the peeked token
            v := ParseCall(name);
          } else {
            var keyword := Keyword(name);
            code := code + [if keyword.Some? then PushLiteral(keyword.value) else PushLookup(pointer, name)];
            GetNextToken();
            v := Matched;
          }
        case Literal(value) =>
          if value.None? { return Rejected; }
          code := code + [PushLiteral(value.value)];
          GetNextToken();
          v := Matched;
        case Comma | Colon | RightBracket | RightBrace => v := Rejected;
        case _ => v := NoMatch;
      }
    }

    /** A function call; its name is the current token and an opening parenthesis the next. */
    method ParseCall(name: string) returns (v: Verdict)
      requires Head(rest) == Id(name) && Head(Tail(rest)).LeftParen?
      modifies this`rest, this`code
      ensures Answers(v, ParseDatum(pointer, old(Stream(rest, code))))
      decreases |rest|, 0
    {
      hide ParseOr, FindBuiltin, AppendFunction, AppendCallback, Keyword;
      GetNextToken();
      GetNextToken();
      var numArgs: nat := 0;
      ghost var start := Stream(rest, code);
      if Head(rest).RightParen? {
        GetNextToken();
      } else {
        var more := true;
        while more
          invariant more ==> ParseArgs(pointer, start, 0) == ParseArgs(pointer, Stream(rest, code), numArgs)
          invariant !more ==> ParseArgs(pointer, start, 0) == Accept((Stream(rest, code), numArgs))
          invariant |rest| <= |start.rest|
          decreases more, |rest|
        {
          v := ParseExpression();
          if v.NoMatch? { return Rejected; }
          if !v.Matched? { return; }
          numArgs := numArgs + 1;
          if Head(rest).RightParen? {
            more := false;
          } else if !Head(rest).Comma? {
            return Rejected;
          }
          GetNextToken();
        }
      }
      var op := FindBuiltin(name, numArgs);
      if !op.Nop? {
        if op.Default? {
          if |code| < 2 { return Crashed; }
          code := code[|code| - 1 := code[|code| - 2]][|code| - 2 := code[|code| - 1]];
        }
        EmitFunction(op, numArgs);
      } else {
        EmitCallback(name, numArgs);
      }
      v := Matched;
    }

    method EmitFunction(op: Op, numArgs: nat)
      modifies this`code
      ensures code == AppendFunction(old(code), op, numArgs)
    {
      if code != [] {
        var last := code[|code| - 1];
        if last.op.Push? {
          code := code[|code| - 1 := last.(op := op, args := numArgs % ARGS_LIMIT)];
          return;
        }
      }
      code := code + [Plain(op, numArgs % ARGS_LIMIT)];
    }

    method EmitCallback(name: string, numArgs: nat)
      modifies this`code
      ensures code == AppendCallback(old(code), name, numArgs)
    {
      if code != [] {
        var last := code[|code| - 1];
        if last.op.Push? && last.flag.Immediate? {
          code := code[|code| - 1 := last.(op := Callback, args := numArgs % ARGS_LIMIT, str := name)];
          return;
        }
      }
      code := code + [Plain(Callback, numArgs % ARGS_LIMIT).(str := name)];
    }

    method PatchCode(i: nat)
      modifies this`code
      ensures code == Patch(old(code), i, |old(code)|)
    {
      if i < |code| { code := code[i := code[i].(args := |code| % ARGS_LIMIT)]; }
    }

    method ParseStatement() returns (v: Verdict)
      modifies this
      ensures AnswersStatement(v, ParserSpec.ParseStatement(pointer, old(PState(rest, code, ifStack, loopStack))))
    {
      if !Head(rest).Id? { return NoMatch; }
      var name := Head(rest).name;
      if name == "if" {
        GetNextToken();
        v := ParseExpression();
        if !v.Matched? { return; }
        ifStack := ifStack + [IfData(Some(|code|), [])];
        code := code + [Plain(ConditionalJump, 0)];
      } else if name == "endif" {
        if ifStack == [] { return Rejected; }
        GetNextToken();
        Endif();
        v := Matched;
      } else if name == "else" {
        if ifStack == [] { return Rejected; }
        GetNextToken();
        v := Else();
      } else if name == "for" {
        GetNextToken();
        v := For();
      } else if name == "endfor" {
        GetNextToken();
        if loopStack == [] { return Rejected; }
        var start := Top(loopStack);
        PatchCode(start);
        code := code + [Plain(EndLoop, (start + 1) % ARGS_LIMIT)];
        loopStack := Below(loopStack);
        v := Matched;
      } else {
        v := NoMatch;
      }
    }

    method Endif()
      requires ifStack != []
      modifies this`code, this`ifStack
      ensures ParseEndif(old(PState(rest, code, ifStack, loopStack))) == Accept(PState(rest, code, ifStack, loopStack))
    {
      var data := Top(ifStack);
      ghost var size := |code|;
      if data.condJump.Some? { PatchCode(data.condJump.value); }
      ghost var patched := code;
      var k := 0;
      while k < |data.jumps|
        invariant 0 <= k <= |data.jumps| && |code| == size && ifStack == old(ifStack)
        invariant PatchAll(patched, data.jumps, size) == PatchAll(code, data.jumps[k..], size)
      {
        PatchCode(data.jumps[k]);
        k := k + 1;
      }
      ifStack := Below(ifStack);
    }

    method Else() returns (v: Verdict)
      requires ifStack != []
      modifies this
      ensures AnswersStatement(v, ParseElse(pointer, old(PState(rest, code, ifStack, loopStack))))
    {
      var data := Top(ifStack);
      if data.condJump.None? { return Crashed; }
      // end the previous block with a jump to endif
      data := data.(jumps := data.jumps + [|code|]);
      code := code + [Plain(Jump, 0)];
      PatchCode(data.condJump.value);
      data := data.(condJump := None);
      ifStack := Below(ifStack) + [data];
      v := Matched;
      if Head(rest) == Id("if") {
        GetNextToken();
        v := ParseExpression();
        if !v.Matched? { return; }
        ifStack := Below(ifStack) + [data.(condJump := Some(|code|))];
        code := code + [Plain(ConditionalJump, 0)];
      }
    }

    method For() returns (v: Verdict)
      modifies this
      ensures AnswersStatement(v, ParseFor(pointer, old(PState(rest, code, ifStack, loopStack))))
    {
      if !Head(rest).Id? { return Rejected; }
      var value := Head(rest).name;
      GetNextToken();
      var key := "";
      if Head(rest).Comma? {
        GetNextToken();
        if !Head(rest).Id? { return Rejected; }
        key := value;
        value := Head(rest).name;
        GetNextToken();
      }
      if Head(rest) != Id("in") { return Rejected; }
      GetNextToken();
      v := ParseExpression();
      if !v.Matched? { return; }
      loopStack := loopStack + [|code|];
      code := code + [Bytecode(StartLoop, 0, Pop, if key == "" then Null else String(key), value)];
    }

    method ParseInto() returns (v: Verdict)
      modifies this
      ensures AnswersStatement(v, ParserSpec.ParseInto(pointer, old(PState(rest, code, ifStack, loopStack))))
    {
      ghost var goal := ParserSpec.ParseInto(pointer, PState(rest, code, ifStack, loopStack));
      while !Head(rest).Eof?
        invariant goal == ParserSpec.ParseInto(pointer, PState(rest, code, ifStack, loopStack))
        decreases |rest|
      {
        hide ParserSpec.ParseItem;
        v := ParseItem();
        if !v.Matched? { return; }
      }
      v := if ifStack != [] || loopStack != [] then Rejected else Matched;
    }

    method ParseItem() returns (v: Verdict)
      requires !Head(rest).Eof?
      modifies this
      ensures AnswersStatement(v, ParserSpec.ParseItem(pointer, old(PState(rest, code, ifStack, loopStack))))
    {
      var token := Head(rest);
      GetNextToken();
      match token {
        case Text(text) =>
          code := code + [Plain(PrintText, 0).(str := text)];
          v := Matched;
        case StatementOpen =>
          v := ParseStatement();
          if !v.Matched? { return if v.NoMatch? then Rejected else v; }
          if !Head(rest).StatementClose? { return Rejected; }
          GetNextToken();
        case LineStatementOpen =>
          v := ParseStatement();
          if v.Rejected? || v.Crashed? { return; }
          if !Head(rest).LineStatementClose? && !Head(rest).Eof? { return Rejected; }
          GetNextToken();
          v := Matched;
        case ExpressionOpen =>
          v := ParseExpression();
          if !v.Matched? { return if v.NoMatch? then Rejected else v; }
          EmitFunction(PrintValue, 1);
          if !Head(rest).ExpressionClose? { return Rejected; }
          GetNextToken();
        case CommentOpen =>
          if !Head(rest).CommentClose? { return Rejected; }
          GetNextToken();
          v := Matched;
        case _ => v := Rejected;
      }
    }
  }
}
