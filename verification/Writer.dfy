/** Writing a template as source text. */
module TemplateWriter {
  import opened Options
  import opened Json
  import opened Lexing
  import opened LexerRoundTrip
  import opened SourcePipeline
  import opened Machine
  import Tokens
  import Templates
  import Printer
  import Compiler
  import Bytecodes
  import Pipeline

  /** A template in pieces: texts, comments, and tags with what stands in them. */
  datatype Piece =
    | TextPiece(text: string)
    | CommentPiece
    | TagPiece(style: LexerRoundTrip.Style, inner: seq<Tokens.Token>)

  function StyleOf(style: Templates.Style): LexerRoundTrip.Style {
    if style.Block? then Statement else Line
  }

  function TagPieceOf(style: Templates.Style, inner: seq<Tokens.Token>): Piece {
    TagPiece(StyleOf(style), inner)
  }

  function BodyPieces(b: Templates.Body): seq<Piece>
    requires Printer.PrintableBody(b)
  {
    match b
    case Nil => []
    case Cons(head, rest) => NodePieces(head) + BodyPieces(rest)
  }

  function NodePieces(n: Templates.Node): seq<Piece>
    requires Printer.PrintableNode(n)
  {
    match n
    case Text(text) => [TextPiece(text)]
    case Comment => [CommentPiece]
    case Print(e) => [TagPiece(Expression, Printer.PrintExpr(e, 0))]
    case If(open, chain) =>
      assert Printer.PrintableChain(chain);
      [TagPieceOf(open, [Tokens.Id("if")] + Printer.PrintExpr(chain.cond, 0))] + BranchPieces(chain)
    case ForItem(open, item, over, body, close) =>
      [TagPieceOf(open, [Tokens.Id("for"), Tokens.Id(item), Tokens.Id("in")] + Printer.PrintExpr(over, 0))]
      + BodyPieces(body) + [TagPieceOf(close, [Tokens.Id("endfor")])]
    case ForEntry(open, key, item, over, body, close) =>
      [TagPieceOf(open, [Tokens.Id("for"), Tokens.Id(key), Tokens.Comma, Tokens.Id(item), Tokens.Id("in")]
                        + Printer.PrintExpr(over, 0))]
      + BodyPieces(body) + [TagPieceOf(close, [Tokens.Id("endfor")])]
  }

  function BranchPieces(c: Templates.Chain): seq<Piece>
    requires Printer.PrintableChain(c)
  {
    BodyPieces(c.yes) + TailPieces(c.tail)
  }

  function TailPieces(t: Templates.Tail): seq<Piece>
    requires Printer.PrintableTail(t)
  {
    match t
    case EndIf(close) => [TagPieceOf(close, [Tokens.Id("endif")])]
    case Else(open, no, close) =>
      [TagPieceOf(open, [Tokens.Id("else")])] + BodyPieces(no) + [TagPieceOf(close, [Tokens.Id("endif")])]
    case ElseIf(open, next) =>
      assert Printer.PrintableChain(next);
      [TagPieceOf(open, [Tokens.Id("else"), Tokens.Id("if")] + Printer.PrintExpr(next.cond, 0))] + BranchPieces(next)
  }

  function PieceTokens(p: Piece): seq<Tokens.Token> {
    match p
    case TextPiece(text) => [Tokens.Token.Text(text)]
    case CommentPiece => [Tokens.Token.CommentOpen, Tokens.Token.CommentClose]
    case TagPiece(style, inner) => [OpenToken(style)] + inner + [CloseToken(style)]
  }

  function OpenToken(style: LexerRoundTrip.Style): Tokens.Token {
    match style
    case Expression => Tokens.Token.ExpressionOpen
    case Statement => Tokens.Token.StatementOpen
    case Line => Tokens.Token.LineStatementOpen
  }

  function CloseToken(style: LexerRoundTrip.Style): Tokens.Token {
    match style
    case Expression => Tokens.Token.ExpressionClose
    case Statement => Tokens.Token.StatementClose
    case Line => Tokens.Token.LineStatementClose
  }

  function Flatten(ps: seq<Piece>): seq<Tokens.Token> {
    if ps == [] then [] else PieceTokens(ps[0]) + Flatten(ps[1..])
  }

  lemma {:induction false} FlattenJoins(ps: seq<Piece>, qs: seq<Piece>)
    ensures Flatten(ps + qs) == Flatten(ps) + Flatten(qs)
    decreases |ps|
  {
    hide PieceTokens;
    if ps == [] {
      assert ps + qs == qs;
    } else {
      assert (ps + qs)[1..] == ps[1..] + qs;
      FlattenJoins(ps[1..], qs);
    }
  }

  lemma OnePiece(p: Piece)
    ensures Flatten([p]) == PieceTokens(p)
  {
    hide PieceTokens;
    assert [p][1..] == [];
    assert Flatten([]) == [];
  }

  lemma TagPrinted(style: Templates.Style, inner: seq<Tokens.Token>)
    ensures Flatten([TagPieceOf(style, inner)]) == Printer.Tag(style, inner)
  {
    hide Flatten;
    OnePiece(TagPieceOf(style, inner));
  }

  // ----- The pieces are the template -----

  lemma {:induction false} BodyPrinted(b: Templates.Body)
    requires Printer.PrintableBody(b)
    ensures Flatten(BodyPieces(b)) == Printer.PrintBody(b)
    decreases b, 0
  {
    hide Flatten, NodePieces, Printer.PrintNode, Printer.PrintableNode;
    match b
    case Nil => assert Flatten([]) == [] by { NoPieces(); }
    case Cons(head, rest) =>
      NodePrinted(head);
      BodyPrinted(rest);
      FlattenJoins(NodePieces(head), BodyPieces(rest));
  }

  lemma NoPieces()
    ensures Flatten([]) == []
  {
  }

  lemma {:induction false} NodePrinted(n: Templates.Node)
    requires Printer.PrintableNode(n)
    ensures Flatten(NodePieces(n)) == Printer.PrintNode(n)
    decreases n, 0
  {
    hide Flatten, BodyPieces, BranchPieces, Printer.PrintBody, Printer.PrintBranches, Printer.PrintExpr;
    hide Printer.Printable, Printer.Tag;
    match n
    case Text(text) => OnePiece(TextPiece(text));
    case Comment => OnePiece(CommentPiece);
    case Print(e) => OnePiece(TagPiece(Expression, Printer.PrintExpr(e, 0)));
    case If(open, chain) =>
      var inner := [Tokens.Id("if")] + Printer.PrintExpr(chain.cond, 0);
      TagPrinted(open, inner);
      BranchesPrinted(chain);
      FlattenJoins([TagPieceOf(open, inner)], BranchPieces(chain));
    case ForItem(open, item, over, body, close) =>
      LoopPrinted(open, [Tokens.Id("for"), Tokens.Id(item), Tokens.Id("in")] + Printer.PrintExpr(over, 0), body, close);
    case ForEntry(open, key, item, over, body, close) =>
      LoopPrinted(open, [Tokens.Id("for"), Tokens.Id(key), Tokens.Comma, Tokens.Id(item), Tokens.Id("in")]
                        + Printer.PrintExpr(over, 0), body, close);
  }

  lemma {:induction false} LoopPrinted(open: Templates.Style, inner: seq<Tokens.Token>, body: Templates.Body, close: Templates.Style)
    requires Printer.PrintableBody(body)
    ensures Flatten([TagPieceOf(open, inner)] + BodyPieces(body) + [TagPieceOf(close, [Tokens.Id("endfor")])])
         == Printer.Tag(open, inner) + Printer.PrintBody(body) + Printer.Tag(close, [Tokens.Id("endfor")])
    decreases body, 1
  {
    hide Flatten, BodyPieces, Printer.PrintBody, Printer.Tag;
    BodyPrinted(body);
    TagPrinted(open, inner);
    TagPrinted(close, [Tokens.Id("endfor")]);
    FlattenJoins([TagPieceOf(open, inner)], BodyPieces(body));
    FlattenJoins([TagPieceOf(open, inner)] + BodyPieces(body), [TagPieceOf(close, [Tokens.Id("endfor")])]);
  }

  lemma {:induction false} BranchesPrinted(c: Templates.Chain)
    requires Printer.PrintableChain(c)
    ensures Flatten(BranchPieces(c)) == Printer.PrintBranches(c)
    decreases c, 0
  {
    hide Flatten, BodyPieces, TailPieces, Printer.PrintBody, Printer.PrintTail;
    BodyPrinted(c.yes);
    TailPrinted(c.tail);
    FlattenJoins(BodyPieces(c.yes), TailPieces(c.tail));
  }

  lemma {:induction false} TailPrinted(t: Templates.Tail)
    requires Printer.PrintableTail(t)
    ensures Flatten(TailPieces(t)) == Printer.PrintTail(t)
    decreases t, 0
  {
    hide Flatten, BodyPieces, BranchPieces, Printer.PrintBody, Printer.PrintBranches, Printer.PrintExpr;
    hide Printer.Printable, Printer.Tag;
    match t
    case EndIf(close) => TagPrinted(close, [Tokens.Id("endif")]);
    case Else(open, no, close) =>
      BodyPrinted(no);
      TagPrinted(open, [Tokens.Id("else")]);
      TagPrinted(close, [Tokens.Id("endif")]);
      FlattenJoins([TagPieceOf(open, [Tokens.Id("else")])], BodyPieces(no));
      FlattenJoins([TagPieceOf(open, [Tokens.Id("else")])] + BodyPieces(no), [TagPieceOf(close, [Tokens.Id("endif")])]);
    case ElseIf(open, next) =>
      var inner := [Tokens.Id("else"), Tokens.Id("if")] + Printer.PrintExpr(next.cond, 0);
      TagPrinted(open, inner);
      BranchesPrinted(next);
      FlattenJoins([TagPieceOf(open, inner)], BranchPieces(next));
  }

  // ----- The text -----

  /** The text of a token in a tag; `literal` writes JSON literals. */
  function WordOf(literal: Json -> Lexeme, t: Tokens.Token): Lexeme {
    match t
    case Id(name) => Lexeme(Kind.Id, name)
    case Literal(value) => if value.Some? then literal(value.value) else Lexeme(Kind.Unknown, "")
    case Comma => Lexeme(Kind.Comma, ",")
    case LeftParen => Lexeme(Kind.LeftParen, "(")
    case RightParen => Lexeme(Kind.RightParen, ")")
    case Equal => Lexeme(Kind.Equal, "==")
    case NotEqual => Lexeme(Kind.NotEqual, "!=")
    case GreaterThan => Lexeme(Kind.GreaterThan, ">")
    case GreaterEqual => Lexeme(Kind.GreaterEqual, ">=")
    case LessThan => Lexeme(Kind.LessThan, "<")
    case LessEqual => Lexeme(Kind.LessEqual, "<=")
    case _ => Lexeme(Kind.Unknown, "")
  }

  function WordsOf(literal: Json -> Lexeme, ts: seq<Tokens.Token>): seq<Lexeme> {
    if ts == [] then [] else [WordOf(literal, ts[0])] + WordsOf(literal, ts[1..])
  }

  function ChunkOf(literal: Json -> Lexeme, p: Piece): Chunk {
    match p
    case TextPiece(text) => Raw(text)
    case CommentPiece => Remark("")
    case TagPiece(style, inner) => LexerRoundTrip.Tag(style, WordsOf(literal, inner))
  }

  function ChunksOf(literal: Json -> Lexeme, ps: seq<Piece>): seq<Chunk> {
    if ps == [] then [] else [ChunkOf(literal, ps[0])] + ChunksOf(literal, ps[1..])
  }

  /** The delimiters a template is written with, trimming or not. */
  predicate Standard(config: Config) {
    config == Config("{%", "%}", "##", "{{", "}}", "{#", "#}", "#{", config.trimBlocks, config.lstripBlocks)
  }

  lemma DefaultIsStandard()
    ensures Standard(DefaultConfig()) && !DefaultConfig().trimBlocks && !DefaultConfig().lstripBlocks
  {
  }

  lemma StandardDelimits(config: Config)
    requires Standard(config)
    ensures Delimiting(config)
  {
    assert config.openChars[0] == '#' && config.openChars[1] == '{';
  }

  /** The source text of a template. */
  function WriteTemplate(config: Config, literal: Json -> Lexeme, b: Templates.Body): string
    requires Printer.PrintableBody(b)
  {
    Write(config, ChunksOf(literal, BodyPieces(b)))
  }

  /** A name is made of the characters of names, and a literal's text is a word that `json` reads as the literal again. */
  predicate LexableToken(json: string -> Option<Json>, literal: Json -> Lexeme, t: Tokens.Token) {
    match t
    case Id(name) => name != "" && NameStart(name[0]) && AllFrom(name, 1, NamePart)
    case Literal(value) =>
      value.Some? &&
      (var w := literal(value.value);
       && (w.kind.Number? || w.kind.String?)
       && WordOk(w) && json(w.text) == value)
    case Comma | LeftParen | RightParen | Equal | NotEqual | GreaterThan | GreaterEqual | LessThan | LessEqual => true
    case _ => false
  }

  /** Such a token's text is a word that is read as the token again. */
  lemma WordReads(json: string -> Option<Json>, literal: Json -> Lexeme, t: Tokens.Token)
    requires LexableToken(json, literal, t)
    ensures WordOk(WordOf(literal, t)) && TokenOf(json, WordOf(literal, t)) == Some(t)
  {
    hide Quoted;
  }

  /** Texts hold no open character and nothing that is stripped, and names and literals can be lexed. */
  predicate LexablePiece(config: Config, json: string -> Option<Json>, literal: Json -> Lexeme, p: Piece) {
    match p
    case TextPiece(text) =>
      text != "" && (forall c :: c in text ==> c != '{' && c != '#') && (config.lstripBlocks ==> Kept(text) == text)
    case CommentPiece => true
    case TagPiece(_, inner) => forall t :: t in inner ==> LexableToken(json, literal, t)
  }

  predicate LexableTemplate(config: Config, json: string -> Option<Json>, literal: Json -> Lexeme, ps: seq<Piece>) {
    && (forall p :: p in ps ==> LexablePiece(config, json, literal, p))
    && forall i :: 0 < i < |ps| ==> MayFollow(config, ps[i - 1], ps[i])
  }

  /** A text does not follow a text, and a line statement starts a line. */
  predicate MayFollow(config: Config, p: Piece, next: Piece) {
    && !(p.TextPiece? && next.TextPiece?)
    && (IsLine(next) ==> EndsWithLine(config, p))
  }

  predicate IsLine(p: Piece) { p.TagPiece? && p.style.Line? }

  /** What is written for the piece ends a line. */
  predicate EndsWithLine(config: Config, p: Piece) {
    match p
    case TextPiece(text) => text != "" && text[|text| - 1] == '\n'
    case CommentPiece => config.trimBlocks
    case TagPiece(style, _) => style.Line? || (style.Statement? && config.trimBlocks)
  }

  lemma LexableRest(config: Config, json: string -> Option<Json>, literal: Json -> Lexeme, ps: seq<Piece>)
    requires ps != [] && LexableTemplate(config, json, literal, ps)
    ensures LexablePiece(config, json, literal, ps[0]) && LexableTemplate(config, json, literal, ps[1..])
    ensures ps[1..] != [] ==> MayFollow(config, ps[0], ps[1])
  {
    hide LexablePiece, MayFollow;
    forall i | 0 < i < |ps[1..]| ensures MayFollow(config, ps[1..][i - 1], ps[1..][i]) {
      assert MayFollow(config, ps[i], ps[i + 1]);
    }
  }

  // ----- The text lexes to the tokens -----

  lemma {:induction false} WordsUnderstood(json: string -> Option<Json>, literal: Json -> Lexeme, ts: seq<Tokens.Token>, ws: seq<Lexeme>)
    requires forall t :: t in ts ==> LexableToken(json, literal, t)
    ensures TokensOf(json, WordsOf(literal, ts) + ws) ==
            match TokensOf(json, ws) case None => None case Some(us) => Some(ts + us)
    decreases |ts|
  {
    hide TokenOf, WordOf, WordOk, TokensOf, WordsOf;
    WordsStep(literal, ts, ws);
    var us := TokensOf(json, ws);
    if ts == [] {
      if us.Some? { assert ts + us.value == us.value; }
    } else {
      var w := WordOf(literal, ts[0]);
      WordReads(json, literal, ts[0]);
      WordsUnderstood(json, literal, ts[1..], ws);
      WordIsWord(w);
      Understood(json, w, ts[0], WordsOf(literal, ts[1..]) + ws);
      if us.Some? { assert [ts[0]] + (ts[1..] + us.value) == ts + us.value; }
    }
  }

  lemma WordsStep(literal: Json -> Lexeme, ts: seq<Tokens.Token>, ws: seq<Lexeme>)
    ensures ts == [] ==> WordsOf(literal, ts) + ws == ws
    ensures ts != [] ==> WordsOf(literal, ts) + ws == [WordOf(literal, ts[0])] + (WordsOf(literal, ts[1..]) + ws)
  {
    hide WordOf;
  }

  lemma Understood(json: string -> Option<Json>, w: Lexeme, t: Tokens.Token, ws: seq<Lexeme>)
    requires !w.kind.Eof? && TokenOf(json, w) == Some(t)
    ensures TokensOf(json, [w] + ws) == match TokensOf(json, ws) case None => None case Some(us) => Some([t] + us)
  {
    hide TokenOf;
    assert ([w] + ws)[1..] == ws;
  }

  lemma {:induction false} PiecesUnderstood(config: Config, json: string -> Option<Json>, literal: Json -> Lexeme, ps: seq<Piece>)
    requires LexableTemplate(config, json, literal, ps)
    ensures TokensOf(json, Listed(config, ChunksOf(literal, ps))) == Some(Flatten(ps))
    decreases |ps|
  {
    hide LexablePiece, LexableTemplate, ListedChunk, PieceTokens, ChunkOf;
    if ps == [] {
      assert TokensOf(json, [Lexeme(Eof, "")]) == Some([]);
    } else {
      LexableRest(config, json, literal, ps);
      PiecesUnderstood(config, json, literal, ps[1..]);
      assert ChunksOf(literal, ps)[1..] == ChunksOf(literal, ps[1..]);
      PieceUnderstood(config, json, literal, ps[0], Listed(config, ChunksOf(literal, ps[1..])));
      KeptPiece(config, json, literal, ps);
    }
  }

  /** Nothing of the pieces is stripped. */
  lemma KeptPiece(config: Config, json: string -> Option<Json>, literal: Json -> Lexeme, ps: seq<Piece>)
    requires ps != [] && LexablePiece(config, json, literal, ps[0])
    ensures var cs := ChunksOf(literal, ps); Listed(config, cs) == ListedChunk(config, cs[0]) + Listed(config, cs[1..])
  {
    hide Kept, WordsOf, LexableToken, Opening, Closing;
  }

  lemma PieceUnderstood(config: Config, json: string -> Option<Json>, literal: Json -> Lexeme, p: Piece, ws: seq<Lexeme>)
    requires LexablePiece(config, json, literal, p) && TokensOf(json, ws).Some?
    ensures TokensOf(json, ListedChunk(config, ChunkOf(literal, p)) + ws)
         == Some(PieceTokens(p) + TokensOf(json, ws).value)
  {
    hide WordsOf, LexableToken, TokensOf;
    match p
    case TextPiece(text) => Understood(json, Lexeme(Kind.Text, text), Tokens.Token.Text(text), ws);
    case CommentPiece =>
      var open, close := Lexeme(Kind.CommentOpen, config.commentOpen), Lexeme(Kind.CommentClose, "" + config.commentClose);
      Understood(json, close, Tokens.Token.CommentClose, ws);
      Understood(json, open, Tokens.Token.CommentOpen, [close] + ws);
      assert [open, close] + ws == [open] + ([close] + ws);
      var us := TokensOf(json, ws).value;
      assert [Tokens.Token.CommentOpen] + ([Tokens.Token.CommentClose] + us) == PieceTokens(p) + us;
    case TagPiece(style, inner) => TagUnderstood(config, json, literal, style, inner, ws);
  }

  lemma TagUnderstood(config: Config, json: string -> Option<Json>, literal: Json -> Lexeme, style: LexerRoundTrip.Style,
                      inner: seq<Tokens.Token>, ws: seq<Lexeme>)
    requires TokensOf(json, ws).Some? && forall t :: t in inner ==> LexableToken(json, literal, t)
    ensures var p := TagPiece(style, inner);
            TokensOf(json, ListedChunk(config, ChunkOf(literal, p)) + ws)
            == Some(PieceTokens(p) + TokensOf(json, ws).value)
  {
    hide WordsOf, LexableToken, TokensOf, TokenOf, Closing, Opening;
    var m := StartOf(ChunkOf(literal, TagPiece(style, inner)));
    var open, close := Lexeme(OpenKind(m), Opening(config, m)), Closing(config, style);
    DelimitersUnderstood(config, json, style, open.text);
    var words := WordsOf(literal, inner);
    Understood(json, close, CloseToken(style), ws);
    WordsUnderstood(json, literal, inner, [close] + ws);
    Understood(json, open, OpenToken(style), words + ([close] + ws));
    Regroup([open], words, [close], ws);
    Regroup([OpenToken(style)], inner, [CloseToken(style)], TokensOf(json, ws).value);
  }

  lemma DelimitersUnderstood(config: Config, json: string -> Option<Json>, style: LexerRoundTrip.Style, open: string)
    ensures var m := StartOf(LexerRoundTrip.Tag(style, []));
            !OpenKind(m).Eof? && TokenOf(json, Lexeme(OpenKind(m), open)) == Some(OpenToken(style))
    ensures var close := Closing(config, style);
            !close.kind.Eof? && TokenOf(json, close) == Some(CloseToken(style))
  {
  }

  lemma Regroup<T>(a: seq<T>, b: seq<T>, c: seq<T>, d: seq<T>)
    ensures a + (b + (c + d)) == a + b + c + d
  {
  }

  // ----- The text can be written -----

  lemma WordNotClose(w: Lexeme)
    requires WordOk(w)
    ensures !StartsAt(w.text, 0, "}}") && !StartsAt(w.text, 0, "%}") && !StartsAt(w.text, 0, "\n")
  {
    WordStarts(w);
    assert w.text[0..1][0] == w.text[0];
    if |w.text| >= 2 {
      assert w.text[0..2][0] == w.text[0];
      assert w.text[0] != '}' && w.text[0] != '%';
    }
  }

  lemma {:induction false} WordsOk(json: string -> Option<Json>, literal: Json -> Lexeme, ts: seq<Tokens.Token>)
    requires forall t :: t in ts ==> LexableToken(json, literal, t)
    ensures forall k :: 0 <= k < |WordsOf(literal, ts)| ==> WordOk(WordsOf(literal, ts)[k])
    decreases |ts|
  {
    hide WordOk, WordOf, TokenOf;
    if ts != [] {
      WordReads(json, literal, ts[0]);
      WordsOk(json, literal, ts[1..]);
    }
  }

  lemma ClosesOk(config: Config, style: LexerRoundTrip.Style, words: seq<Lexeme>)
    requires Standard(config) && forall k :: 0 <= k < |words| ==> WordOk(words[k])
    ensures CloseOk(Closing(config, style).text, words)
  {
    hide WordOk, StartsAt;
    forall k | 0 <= k < |words|
      ensures !StartsAt(words[k].text, 0, "}}") && !StartsAt(words[k].text, 0, "%}") && !StartsAt(words[k].text, 0, "\n")
    {
      WordNotClose(words[k]);
    }
  }

  /** A text without open characters is plain wherever it stands. */
  lemma TextPlain(config: Config, before: string, text: string, rest: string)
    requires Standard(config) && forall c :: c in text ==> c != '{' && c != '#'
    ensures PlainText(config, before, text, rest)
  {
    forall i | 0 <= i < |text| ensures OpenerOf(config, EndsLine(before + text[..i]), text[i..] + rest).None? {
      assert text[i] in text;
      NoOpener(config, EndsLine(before + text[..i]), text[i..] + rest);
    }
  }

  lemma NoOpener(config: Config, lineStart: bool, s: string)
    requires Standard(config) && s != "" && s[0] != '{' && s[0] != '#'
    ensures OpenerOf(config, lineStart, s).None?
  {
    StartChar(s, 0, config.expressionOpen);
    StartChar(s, 0, config.statementOpen);
    StartChar(s, 0, config.commentOpen);
    StartChar(s, 0, config.lineStatement);
  }

  lemma TagOpens(config: Config, mode: Mode, lineStart: bool, rest: string)
    requires Standard(config) && Starts(mode) && (mode.LineStart? ==> lineStart)
    ensures OpenerOf(config, lineStart, Opening(config, mode) + rest) == Some(mode)
  {
    var open := Opening(config, mode);
    var s := open + rest;
    assert s[0..2] == open;
    assert s[0..2][1] == open[1];
  }

  lemma {:induction false} PiecesWritable(config: Config, json: string -> Option<Json>, literal: Json -> Lexeme, before: string, ps: seq<Piece>)
    requires Standard(config) && LexableTemplate(config, json, literal, ps)
    requires ps != [] && IsLine(ps[0]) ==> EndsLine(before)
    ensures Writable(config, before, ChunksOf(literal, ps))
    decreases |ps|
  {
    hide LexablePiece, OpenerOf, WriteChunk, PlainText, CloseOk;
    if ps != [] {
      if EndsWithLine(config, ps[0]) { LineEnded(config, literal, before, ps[0]); }
      var cs := ChunksOf(literal, ps);
      LexableRest(config, json, literal, ps);
      assert cs[1..] == ChunksOf(literal, ps[1..]);
      PiecesWritable(config, json, literal, before + WriteChunk(config, cs[0]), ps[1..]);
      PieceWritable(config, json, literal, before, ps[0], Write(config, cs[1..]));
      assert ps[1..] != [] ==> cs[1] == ChunkOf(literal, ps[1]);
    }
  }

  lemma LineEnded(config: Config, literal: Json -> Lexeme, before: string, p: Piece)
    requires EndsWithLine(config, p)
    ensures EndsLine(before + WriteChunk(config, ChunkOf(literal, p)))
  {
    hide WordsOf;
    if IsLine(p) { LineCloses(WordsOf(literal, p.inner)); }
  }

  lemma {:induction false} LineCloses(words: seq<Lexeme>)
    ensures var text := WriteWords(words, "\n"); text != "" && text[|text| - 1] == '\n'
    decreases |words|
  {
    if words != [] { LineCloses(words[1..]); }
  }

  lemma PieceWritable(config: Config, json: string -> Option<Json>, literal: Json -> Lexeme, before: string, p: Piece, rest: string)
    requires Standard(config) && LexablePiece(config, json, literal, p) && (IsLine(p) ==> EndsLine(before))
    ensures var c := ChunkOf(literal, p);
            && (!c.Raw? ==> OpenerOf(config, EndsLine(before), WriteChunk(config, c) + rest) == Some(StartOf(c)))
            && (c.Raw? ==> c.text != "" && PlainText(config, before, c.text, rest))
            && (c.Tag? ==> (forall k :: 0 <= k < |c.words| ==> WordOk(c.words[k])) && CloseOk(Closing(config, c.style).text, c.words))
  {
    hide OpenerOf, PlainText, CloseOk, WordOk, WriteWords, WordsOf, LexableToken, Closing;
    var c := ChunkOf(literal, p);
    match p
    case TextPiece(text) => TextPlain(config, before, text, rest);
    case CommentPiece =>
      var close := "" + config.commentClose;
      var tail := Trailer(config, c) + rest;
      TagOpens(config, CommentStart, EndsLine(before), close + tail);
      assert WriteChunk(config, c) + rest == config.commentOpen + (close + tail);
    case TagPiece(style, inner) =>
      WordsOk(json, literal, inner);
      ClosesOk(config, style, c.words);
      var words := WriteWords(c.words, Closing(config, style).text);
      var tail := Trailer(config, c) + rest;
      TagOpens(config, StartOf(c), EndsLine(before), words + tail);
      assert WriteChunk(config, c) + rest == Opening(config, StartOf(c)) + (words + tail);
  }

  // ----- Source to text -----

  /**
   * For every runnable template whose names, literals and texts can be lexed, whether or not blocks are trimmed and
   * stripped: its source text, lexed, parsed, compiled and run, prints the meaning of what the template actually does and
   * fails exactly when that fails; when the template fits, this is its own meaning.
   */
  method RenderWritten(env: Bytecodes.Env, config: Config, json: string -> Option<Json>, literal: Json -> Lexeme,
                       source: string, root: Json, ghost b: Templates.Body)
    returns (r: Option<(string, Status)>)
    requires Standard(config) && Pipeline.Runnable(env, b) && LexableTemplate(config, json, literal, BodyPieces(b))
    requires source == WriteTemplate(config, literal, b)
    ensures r == Some(Pipeline.Outcome(Templates.Render(env, root, root, Compiler.ActualBody(env.pointerNotation, b))))
    ensures Compiler.FitsBody(env.pointerNotation, b) ==> r == Some(Pipeline.Outcome(Templates.Render(env, root, root, b)))
  {
    hide Writable, Write, Listed, TokensOf, Templates.Render, Compiler.FitsBody, Compiler.ActualBody;
    hide Printer.PrintBody, BodyPieces, LexableTemplate, ChunksOf;
    BodyPrinted(b);
    PiecesUnderstood(config, json, literal, BodyPieces(b));
    PiecesWritable(config, json, literal, "", BodyPieces(b));
    StandardDelimits(config);
    r := RenderSource(env, config, json, source, root, ChunksOf(literal, BodyPieces(b)), b);
  }
}
