/** From template source to text: the lexer, the parser and the renderer together. */
module SourcePipeline {
  import opened Options
  import opened Json
  import opened Bytecodes
  import opened Templates
  import opened Machine
  import opened Pipeline
  import Tokens
  import Printer
  import Compiler
  import opened Lexing
  import opened LexerRoundTrip
  import opened TemplateLexer

  /** The parser's view of a token; `json` reads a literal. Brackets and braces, which open larger literals, have none. */
  function TokenOf(json: string -> Option<Json>, w: Lexeme): Option<Tokens.Token> {
    match w.kind
    case Text => Some(Tokens.Text(w.text))
    case StatementOpen => Some(Tokens.StatementOpen)
    case StatementClose => Some(Tokens.StatementClose)
    case LineStatementOpen => Some(Tokens.LineStatementOpen)
    case LineStatementClose => Some(Tokens.LineStatementClose)
    case ExpressionOpen => Some(Tokens.ExpressionOpen)
    case ExpressionClose => Some(Tokens.ExpressionClose)
    case CommentOpen => Some(Tokens.CommentOpen)
    case CommentClose => Some(Tokens.CommentClose)
    case Id => Some(Tokens.Id(w.text))
    case Number => Some(Tokens.Token.Literal(json(w.text)))
    case String => Some(Tokens.Token.Literal(json(w.text)))
    case Comma => Some(Tokens.Comma)
    case Colon => Some(Tokens.Colon)
    case LeftParen => Some(Tokens.LeftParen)
    case RightParen => Some(Tokens.RightParen)
    case RightBracket => Some(Tokens.RightBracket)
    case RightBrace => Some(Tokens.RightBrace)
    case Equal => Some(Tokens.Token.Equal)
    case GreaterThan => Some(Tokens.GreaterThan)
    case GreaterEqual => Some(Tokens.Token.GreaterEqual)
    case LessThan => Some(Tokens.LessThan)
    case LessEqual => Some(Tokens.Token.LessEqual)
    case NotEqual => Some(Tokens.NotEqual)
    case Unknown => Some(Tokens.Unknown)
    case Eof => Some(Tokens.Eof)
    case LeftBracket => None
    case LeftBrace => None
  }

  /** Only the two kinds of literals share their token. */
  lemma KindsStayApart(json: string -> Option<Json>, v: Lexeme, w: Lexeme)
    requires TokenOf(json, v).Some? && TokenOf(json, v) == TokenOf(json, w)
    ensures v.kind == w.kind || (v.kind in {Kind.Number, Kind.String} && w.kind in {Kind.Number, Kind.String})
    ensures v.kind in {Kind.Text, Kind.Id} ==> v.text == w.text
  {
  }

  /** All tokens up to the end of the source. */
  function TokensOf(json: string -> Option<Json>, ws: seq<Lexeme>): Option<seq<Tokens.Token>> {
    if ws == [] || ws[0].kind.Eof? then Some([])
    else
      var t :- TokenOf(json, ws[0]);
      var ts :- TokensOf(json, ws[1..]);
      Some([t] + ts)
  }

  /** Lexes the whole source; fails on a token the parser model does not have. */
  method LexAll(config: Config, json: string -> Option<Json>, source: string) returns (r: Option<seq<Tokens.Token>>)
    requires Usable(config) && Closes(config)
    ensures r == TokensOf(json, Lexemes(config, source, Lexed(InText, 0)))
  {
    hide Lexemes, Lexing.Scan, TokenOf, Follows;
    assert Ready(config, source, Lexed(InText, 0));
    hide Ready;
    var lexer := new Lexer(config);
    lexer.Start(source);
    var tokens := [];
    ghost var all := Lexemes(config, source, Lexed(InText, 0));
    FollowsStart(json, all);
    while true
      invariant lexer.config == config && lexer.input == source && Ready(config, source, lexer.State())
      invariant Follows(json, tokens, Lexemes(config, source, lexer.State()), all)
      decreases |source| + 1 - lexer.pos
    {
      ghost var before := lexer.State();
      ReadyInside(config, source, before);
      ScanConsumes(config, source, before);
      OneToken(config, source, before);
      var t := lexer.Scan();
      if t.kind.Eof? {
        FollowsEnd(json, tokens, Lexemes(config, source, before), all);
        return Some(tokens);
      }
      var w := Lexeme(t.kind, source[t.start..t.end]);
      var token := TokenOf(json, w);
      FollowsNext(json, tokens, w, Lexemes(config, source, lexer.State()), all);
      if token.None? { return None; }
      tokens := tokens + [token.value];
    }
  }

  /** What is still to be lexed completes `tokens` to the whole. */
  ghost predicate Follows(json: string -> Option<Json>, tokens: seq<Tokens.Token>, rest: seq<Lexeme>, all: seq<Lexeme>) {
    TokensOf(json, all) == var ts := TokensOf(json, rest); if ts.Some? then Some(tokens + ts.value) else None
  }

  lemma FollowsNext(json: string -> Option<Json>, tokens: seq<Tokens.Token>, w: Lexeme, rest: seq<Lexeme>, all: seq<Lexeme>)
    requires Follows(json, tokens, [w] + rest, all) && !w.kind.Eof?
    ensures var t := TokenOf(json, w);
            (t.None? ==> TokensOf(json, all).None?) && (t.Some? ==> Follows(json, tokens + [t.value], rest, all))
  {
    hide TokenOf;
    assert ([w] + rest)[1..] == rest;
    var t, ts := TokenOf(json, w), TokensOf(json, rest);
    if t.Some? && ts.Some? { assert tokens + ([t.value] + ts.value) == tokens + [t.value] + ts.value; }
  }

  lemma FollowsStart(json: string -> Option<Json>, all: seq<Lexeme>)
    ensures Follows(json, [], all, all)
  {
    var ts := TokensOf(json, all);
    if ts.Some? { assert [] + ts.value == ts.value; }
  }

  lemma FollowsEnd(json: string -> Option<Json>, tokens: seq<Tokens.Token>, rest: seq<Lexeme>, all: seq<Lexeme>)
    requires Follows(json, tokens, rest, all) && rest != [] && rest[0].kind.Eof?
    ensures TokensOf(json, all) == Some(tokens)
  {
    assert tokens + [] == tokens;
  }

  lemma ReadyInside(config: Config, source: string, l: Lexed)
    requires Ready(config, source, l)
    ensures l.pos <= |source|
  {
  }

  /**
   * Rendering the source written for a template prints the meaning of what the template actually does, and fails when
   * that fails; when the template fits, this is its own meaning.
   */
  method RenderSource(env: Env, config: Config, json: string -> Option<Json>, source: string, root: Json,
                      ghost chunks: seq<Chunk>, ghost b: Body)
    returns (r: Option<(string, Status)>)
    requires Delimiting(config) && Writable(config, "", chunks) && source == Write(config, chunks)
    requires Runnable(env, b) && TokensOf(json, Listed(config, chunks)) == Some(Printer.PrintBody(b))
    ensures r == Some(Outcome(Templates.Render(env, root, root, Compiler.ActualBody(env.pointerNotation, b))))
    ensures Compiler.FitsBody(env.pointerNotation, b) ==> r == Some(Outcome(Templates.Render(env, root, root, b)))
  {
    hide Lexemes, Writable, Write, Listed, TokensOf, Templates.Render, Runnable, Compiler.FitsBody;
    hide Compiler.ActualBody, Printer.PrintBody;
    WrittenSourceLexes(config, chunks);
    var tokens := LexAll(config, json, source);
    var out, status := RenderTokens(env, tokens.value, root, b);
    r := Some((out, status));
  }
}
