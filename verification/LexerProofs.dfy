/** Writing tokens as source text and lexing them back. */
module LexerRoundTrip {
  import opened Options
  import opened Lexing

  /** A token's kind and text. */
  datatype Lexeme = Lexeme(kind: Kind, text: string)

  datatype Style = Expression | Statement | Line

  /** A stretch of template source: plain text, a tag with its words, or a comment. */
  datatype Chunk = Raw(text: string) | Tag(style: Style, words: seq<Lexeme>) | Remark(text: string)

  // ----- Writing -----

  function StartOf(c: Chunk): Mode {
    match c
    case Raw(_) => InText
    case Remark(_) => CommentStart
    case Tag(style, _) =>
      match style
      case Expression => ExpressionStart
      case Statement => StatementStart
      case Line => LineStart
  }

  function Closing(config: Config, style: Style): Lexeme {
    match style
    case Expression => Lexeme(ExpressionClose, config.expressionClose)
    case Statement => Lexeme(StatementClose, config.statementClose)
    case Line => Lexeme(LineStatementClose, "\n")
  }

  /** Each word with a space before it, and one more before the closing sequence. */
  function WriteWords(words: seq<Lexeme>, close: string): string {
    if words == [] then " " + close else " " + words[0].text + WriteWords(words[1..], close)
  }

  /** Statements and comments are the chunks that `trimBlocks` and `lstripBlocks` are about. */
  predicate Block(c: Chunk) { c.Remark? || (c.Tag? && c.style.Statement?) }

  /** With `trimBlocks` a line end is written behind each of them. */
  function Trailer(config: Config, c: Chunk): string { if config.trimBlocks && Block(c) then "\n" else "" }

  function WriteChunk(config: Config, c: Chunk): string {
    match c
    case Raw(text) => text
    case Remark(text) => config.commentOpen + (text + config.commentClose + Trailer(config, c))
    case Tag(style, words) => Opening(config, StartOf(c)) + (WriteWords(words, Closing(config, style).text) + Trailer(config, c))
  }

  function Write(config: Config, cs: seq<Chunk>): string {
    if cs == [] then "" else WriteChunk(config, cs[0]) + Write(config, cs[1..])
  }

  /** The tokens that were written. */
  function Listed(config: Config, cs: seq<Chunk>): seq<Lexeme> {
    if cs == [] then [Lexeme(Eof, "")]
    else if cs[0].Raw? && Strips(config, cs[1..]) then Stripped(cs[0].text, Listed(config, cs[1..]))
    else ListedChunk(config, cs[0]) + Listed(config, cs[1..])
  }

  /** With `lstripBlocks` a text gives up its indentation before a statement or a comment. */
  predicate Strips(config: Config, cs: seq<Chunk>) { config.lstripBlocks && cs != [] && Block(cs[0]) }

  /** A text that is all indentation is no token of its own, but the next one starts with it. */
  function Stripped(text: string, rest: seq<Lexeme>): seq<Lexeme> {
    if Kept(text) != "" then [Lexeme(Text, Kept(text))] + rest
    else if rest == [] then [] else [rest[0].(text := text + rest[0].text)] + rest[1..]
  }

  /** The text without the spaces and tabs of its last line, if there is nothing else on it. */
  function Kept(text: string): string {
    var kept := WithoutBlanks(text);
    if kept == "" || kept[|kept| - 1] == '\n' || kept[|kept| - 1] == '\r' then kept else text
  }

  function WithoutBlanks(text: string): string {
    if text != "" && (text[|text| - 1] == ' ' || text[|text| - 1] == '\t') then WithoutBlanks(text[..|text| - 1]) else text
  }

  function ListedChunk(config: Config, c: Chunk): seq<Lexeme> {
    match c
    case Raw(text) => [Lexeme(Text, text)]
    case Remark(text) => [Lexeme(CommentOpen, config.commentOpen), Lexeme(CommentClose, text + config.commentClose)]
    case Tag(style, words) =>
      [Lexeme(OpenKind(StartOf(c)), Opening(config, StartOf(c)))] + words + [Closing(config, style)]
  }

  // ----- What can be written -----

  predicate NameStart(c: char) { 'a' <= c <= 'z' || 'A' <= c <= 'Z' || c == '_' }
  predicate NamePart(c: char) { NameStart(c) || '0' <= c <= '9' || c == '.' || c == '/' || c == '-' }
  predicate NumberStart(c: char) { '0' <= c <= '9' || c == '-' }
  predicate NumberPart(c: char) { NumberStart(c) || c == '+' || c == '.' || c == 'e' || c == 'E' }

  predicate AllFrom(w: string, i: nat, p: char -> bool) { forall k :: i <= k < |w| ==> p(w[k]) }

  /** In a string literal a quote needs a backslash before it, and the last character is no backslash. */
  predicate Quoted(w: string) {
    && |w| >= 2 && w[0] == '"' && w[|w| - 1] == '"'
    && (|w| > 2 ==> w[|w| - 2] != '\\')
    && forall k :: 1 <= k < |w| - 1 && w[k] == '"' ==> w[k - 1] == '\\' 
  }

  predicate WordOk(w: Lexeme) {
    match w.kind
    case Id => w.text != "" && NameStart(w.text[0]) && AllFrom(w.text, 1, NamePart)
    case Number => w.text != "" && NumberStart(w.text[0]) && AllFrom(w.text, 1, NumberPart)
    case String => Quoted(w.text)
    case Comma => w.text == ","
    case Colon => w.text == ":"
    case LeftParen => w.text == "("
    case RightParen => w.text == ")"
    case LeftBracket => w.text == "["
    case RightBracket => w.text == "]"
    case LeftBrace => w.text == "{"
    case RightBrace => w.text == "}"
    case Equal => w.text == "=="
    case NotEqual => w.text == "!="
    case GreaterThan => w.text == ">"
    case GreaterEqual => w.text == ">="
    case LessThan => w.text == "<"
    case LessEqual => w.text == "<="
    case _ => false
  }

  /** A closing sequence without blanks, which cannot be mistaken for the start of a word. */
  predicate CloseOk(close: string, words: seq<Lexeme>) {
    && close != "" && (forall k :: 0 <= k < |close| ==> close[k] !in " \t\r")
    && forall k :: 0 <= k < |words| ==> !StartsAt(words[k].text, 0, close)
  }

  /** The opening sequence at the head of `rest`, at the start of a line or not. */
  function OpenerOf(config: Config, lineStart: bool, rest: string): Option<Mode> {
    if StartsAt(rest, 0, config.expressionOpen) then Some(ExpressionStart)
    else if StartsAt(rest, 0, config.statementOpen) then Some(StatementStart)
    else if StartsAt(rest, 0, config.commentOpen) then Some(CommentStart)
    else if lineStart && StartsAt(rest, 0, config.lineStatement) then Some(LineStart)
    else None
  }

  predicate EndsLine(s: string) { s == "" || s[|s| - 1] == '\n' }

  /** No opening sequence starts inside a text, also none that what follows completes. */
  predicate PlainText(config: Config, before: string, text: string, rest: string) {
    forall i :: 0 <= i < |text| ==> OpenerOf(config, EndsLine(before + text[..i]), text[i..] + rest).None?
  }

  /** The chunks can be written behind `before`. */
  predicate Writable(config: Config, before: string, cs: seq<Chunk>)
    decreases |cs|
  {
    cs == [] ||
    (var c := cs[0];
     && Writable(config, before + WriteChunk(config, c), cs[1..])
     && (!c.Raw? ==> OpenerOf(config, EndsLine(before), Write(config, cs)) == Some(StartOf(c)))
     && match c
        case Raw(text) =>
          && text != "" && PlainText(config, before, text, Write(config, cs[1..]))
          && (cs[1..] != [] ==> !cs[1].Raw?)
        case Remark(text) =>
          forall i :: 0 <= i < |text| ==> !StartsAt(text + config.commentClose, i, config.commentClose)
        case Tag(style, words) =>
          && (forall k :: 0 <= k < |words| ==> WordOk(words[k]))
          && CloseOk(Closing(config, style).text, words))
  }

  predicate Delimiting(config: Config) { Usable(config) && Closes(config) }

  function Texts(s: string, ts: seq<Token>): seq<Lexeme>
    requires forall t :: t in ts ==> t.start <= t.end <= |s|
  {
    if ts == [] then [] else [Lexeme(ts[0].kind, s[ts[0].start..ts[0].end])] + Texts(s, ts[1..])
  }

  lemma {:induction false} TokensInside(config: Config, s: string, l: Lexed)
    requires Ready(config, s, l) && Usable(config) && Closes(config)
    ensures forall t :: t in Tokens(config, s, l) ==> t.start <= t.end <= |s|
    decreases |s| - l.pos
  {
    hide Scan;
    ScanConsumes(config, s, l);
    var (t, l') := Scan(config, s, l);
    if !t.kind.Eof? { TokensInside(config, s, l'); }
  }

  /** The kinds and texts of all tokens from `l` on. */
  function Lexemes(config: Config, s: string, l: Lexed): seq<Lexeme>
    requires Ready(config, s, l) && Usable(config) && Closes(config)
  {
    TokensInside(config, s, l);
    Texts(s, Tokens(config, s, l))
  }

  lemma OneToken(config: Config, s: string, l: Lexed)
    requires Ready(config, s, l) && Usable(config) && Closes(config)
    ensures var (t, l') := Scan(config, s, l);
            && Ready(config, s, l') && t.start <= t.end <= |s|
            && (t.kind.Eof? ==> Lexemes(config, s, l) == [Lexeme(Eof, s[t.start..t.end])])
            && (!t.kind.Eof? ==>
                  Lexemes(config, s, l) == [Lexeme(t.kind, s[t.start..t.end])] + Lexemes(config, s, l'))
  {
    hide Scan;
    ScanConsumes(config, s, l);
    TokensInside(config, s, l);
    var (t, l') := Scan(config, s, l);
    if !t.kind.Eof? {
      TokensInside(config, s, l');
      assert Tokens(config, s, l) == [t] + Tokens(config, s, l');
      assert Tokens(config, s, l)[1..] == Tokens(config, s, l');
    } else {
      assert Tokens(config, s, l) == [t];
      assert [t][1..] == [] && Texts(s, []) == [];
      assert Texts(s, [t]) == [Lexeme(Eof, s[t.start..t.end])];
    }
  }

  // ----- Words -----

  lemma {:induction false} IdEnds(s: string, i: nat, j: nat)
    requires i <= j < |s| && (forall k :: i <= k < j ==> IdChar(s[k])) && !IdChar(s[j])
    ensures IdEnd(s, i) == j
    decreases j - i
  {
    if i < j { IdEnds(s, i + 1, j); }
  }

  lemma {:induction false} NumberEnds(s: string, i: nat, j: nat)
    requires i <= j < |s| && (forall k :: i <= k < j ==> NumberChar(s[k])) && !NumberChar(s[j])
    ensures NumberEnd(s, i) == j
    decreases j - i
  {
    if i < j { NumberEnds(s, i + 1, j); }
  }

  /** Up to the first quote at `j` that has no backslash before it. */
  lemma {:induction false} StringEnds(s: string, i: nat, j: nat, escape: bool)
    requires 0 < i <= j < |s| && s[j] == '"' && (escape <==> s[i - 1] == '\\') && s[j - 1] != '\\'
    requires forall k :: i <= k < j && s[k] == '"' ==> s[k - 1] == '\\'
    ensures StringEnd(s, i, '"', escape) == j + 1
    decreases j - i
  {
    if i < j { StringEnds(s, i + 1, j, s[i] == '\\'); }
  }

  lemma WordLexes(s: string, t: nat, w: Lexeme)
    requires WordOk(w) && StartsAt(s, t, w.text) && t + |w.text| < |s| && s[t + |w.text|] == ' '
    ensures w.text != "" && Word(s, t) == (w.kind, t + |w.text|)
  {
    var e := t + |w.text|;
    forall k | 0 <= k < |w.text| ensures s[t + k] == w.text[k] { assert s[t..e][k] == s[t + k]; }
    match w.kind {
      case Id =>
        forall k | t + 1 <= k < e ensures IdChar(s[k]) { assert s[k] == w.text[k - t]; }
        IdEnds(s, t + 1, e);
      case Number =>
        forall k | t + 1 <= k < e ensures NumberChar(s[k]) { assert s[k] == w.text[k - t]; }
        NumberEnds(s, t + 1, e);
      case String => QuotedLexes(s, t, w.text);
      case _ => MarkLexes(s, t, w);
    }
  }

  /** Punctuation and operators. */
  lemma MarkLexes(s: string, t: nat, w: Lexeme)
    requires WordOk(w) && !w.kind.Id? && !w.kind.Number? && !w.kind.String?
    requires t + |w.text| < |s| && s[t + |w.text|] == ' ' && forall k :: 0 <= k < |w.text| ==> s[t + k] == w.text[k]
    ensures w.text != "" && Word(s, t) == (w.kind, t + |w.text|)
  {
    hide IdEnd, NumberEnd, StringEnd, Quoted, AllFrom;
    assert s[t] == w.text[0];
    if |w.text| == 2 { assert s[t + 1] == w.text[1]; }
  }

  lemma QuotedLexes(s: string, t: nat, w: string)
    requires Quoted(w) && t + |w| < |s| && forall k :: 0 <= k < |w| ==> s[t + k] == w[k]
    ensures StringEnd(s, t + 1, '"', false) == t + |w|
  {
    var j := t + |w| - 1;
    assert s[t] == w[0] && s[j] == w[|w| - 1];
    assert s[j - 1] == w[|w| - 2];
    forall k | t + 1 <= k < j && s[k] == '"' ensures s[k - 1] == '\\' {
      assert s[k] == w[k - t] && s[k - 1] == w[k - t - 1];
    }
    StringEnds(s, t + 1, j, false);
  }

  /** No word starts with a blank. */
  lemma WordStarts(w: Lexeme)
    requires WordOk(w)
    ensures w.text != "" && !Space(w.text[0]) && w.text[0] != '\n'
  {
  }

  lemma PieceAt(s: string, p: nat, a: string, b: string)
    requires p <= |s| && s[p..] == a + b
    ensures StartsAt(s, p, a) && p + |a| <= |s| && s[p + |a|..] == b
  {
    assert s[p..][..|a|] == a;
    assert s[p..p + |a|] == s[p..][..|a|];
    assert s[p + |a|..] == s[p..][|a|..];
  }

  /** A sequence without spaces is not completed by what follows a word and its space. */
  lemma CloseNotHere(s: string, t: nat, w: string, close: string)
    requires StartsAt(s, t, w) && t + |w| < |s| && s[t + |w|] == ' '
    requires (forall k :: 0 <= k < |close| ==> !Space(close[k])) && !StartsAt(w, 0, close)
    ensures !StartsAt(s, t, close)
  {
    ShorterPrefix(s, t, w, close);
    LongerPrefix(s, t, |w|, close);
  }

  lemma ShorterPrefix(s: string, t: nat, w: string, v: string)
    requires StartsAt(s, t, w)
    ensures StartsAt(s, t, v) && |v| <= |w| ==> StartsAt(w, 0, v)
  {
    if StartsAt(s, t, v) && |v| <= |w| { assert s[t..t + |w|][..|v|] == s[t..t + |v|]; }
  }

  lemma LongerPrefix(s: string, t: nat, n: nat, v: string)
    requires t + n < |s|
    ensures StartsAt(s, t, v) && n < |v| ==> v[n] == s[t + n]
  {
    if StartsAt(s, t, v) && n < |v| { assert s[t..t + |v|][n] == s[t + n]; }
  }

  function ModeOf(style: Style): Mode {
    match style
    case Expression => ExpressionBody
    case Statement => StatementBody
    case Line => LineBody
  }

  /** Where the text goes on behind a tag that is closed at `q`. */
  function Behind(config: Config, s: string, style: Style, q: nat): (r: nat)
    requires q <= |s|
    ensures q <= r <= |s|
  {
    if config.trimBlocks && style.Statement? then SkipNewline(s, q) else q
  }

  lemma {:induction false} WordsLex(config: Config, s: string, p: nat, style: Style, words: seq<Lexeme>, rest: string)
    requires Delimiting(config) && p <= |s|
    requires var close := Closing(config, style).text; s[p..] == WriteWords(words, close) + rest && CloseOk(close, words)
    requires forall k :: 0 <= k < |words| ==> WordOk(words[k])
    ensures var close := Closing(config, style);
            var q := p + |WriteWords(words, close.text)|;
            && q <= |s|
            && Lexemes(config, s, Lexed(ModeOf(style), p))
               == words + [close] + Lexemes(config, s, Lexed(InText, Behind(config, s, style, q)))
    decreases |words|
  {
    hide Word, WordOk, Lexemes, Closing;
    var close := Closing(config, style);
    if words == [] {
      CloseLexes(config, s, p, style, rest);
    } else {
      var w, t := words[0], p + 1 + |words[0].text|;
      var more := WriteWords(words[1..], close.text) + rest;
      assert WriteWords(words, close.text) + rest == " " + (w.text + more);
      hide WriteWords;
      WordLexed(config, s, p, style, words, more);
      forall k | 0 <= k < |words[1..]| ensures WordOk(words[1..][k]) && !StartsAt(words[1..][k].text, 0, close.text) {
        assert words[1..][k] == words[k + 1];
      }
      WordsLex(config, s, t, style, words[1..], rest);
      var q := t + |WriteWords(words[1..], close.text)|;
      WordJoins(words, close, Lexemes(config, s, Lexed(InText, Behind(config, s, style, q))));
      WrittenLength(words, close.text);
    }
  }

  lemma WordJoins(words: seq<Lexeme>, close: Lexeme, rest: seq<Lexeme>)
    requires words != []
    ensures [words[0]] + (words[1..] + [close] + rest) == words + [close] + rest
  {
  }

  lemma WrittenLength(words: seq<Lexeme>, close: string)
    requires words != []
    ensures |WriteWords(words, close)| == 1 + |words[0].text| + |WriteWords(words[1..], close)|
  {
  }

  lemma CloseLexes(config: Config, s: string, p: nat, style: Style, rest: string)
    requires Delimiting(config) && p <= |s|
    requires var close := Closing(config, style).text; s[p..] == WriteWords([], close) + rest && CloseOk(close, [])
    ensures var close := Closing(config, style);
            var q := p + |WriteWords([], close.text)|;
            && q <= |s|
            && Lexemes(config, s, Lexed(ModeOf(style), p))
               == [] + [close] + Lexemes(config, s, Lexed(InText, Behind(config, s, style, q)))
  {
    hide Word, Lexemes, Closing, Scan;
    var close := Closing(config, style);
    assert WriteWords([], close.text) + rest == " " + (close.text + rest);
    PieceAt(s, p, " ", close.text + rest);
    PieceAt(s, p + 1, close.text, rest);
    CloseScans(config, s, p, style);
    OneToken(config, s, Lexed(ModeOf(style), p));
    CloseKind(config, style);
    assert s[p + 1..p + 1 + |close.text|] == close.text;
  }

  lemma CloseKind(config: Config, style: Style)
    ensures !Closing(config, style).kind.Eof?
  {
  }

  lemma WordLexed(config: Config, s: string, p: nat, style: Style, words: seq<Lexeme>, more: string)
    requires Delimiting(config) && p <= |s| && words != [] && s[p..] == " " + (words[0].text + more)
    requires more != "" && more[0] == ' ' && WordOk(words[0]) && CloseOk(Closing(config, style).text, words)
    ensures var w := words[0];
            var t := p + 1 + |w.text|;
            && t <= |s| && s[t..] == more
            && Lexemes(config, s, Lexed(ModeOf(style), p)) == [w] + Lexemes(config, s, Lexed(ModeOf(style), t))
  {
    hide Word, WordOk, Lexemes, Closing, Scan;
    var w := words[0];
    PieceAt(s, p, " ", w.text + more);
    PieceAt(s, p + 1, w.text, more);
    assert s[p + 1 + |w.text|..][0] == ' ';
    assert CloseOk(Closing(config, style).text, [w]);
    WordScans(config, s, p, style, w);
    OneToken(config, s, Lexed(ModeOf(style), p));
    WordIsWord(w);
    assert s[p + 1..p + 1 + |w.text|] == w.text;
  }

  lemma WordIsWord(w: Lexeme)
    requires WordOk(w)
    ensures !w.kind.Eof?
  {
  }

  lemma CloseScans(config: Config, s: string, p: nat, style: Style)
    requires Delimiting(config) && p < |s| && s[p] == ' '
    requires var close := Closing(config, style).text; StartsAt(s, p + 1, close) && CloseOk(close, [])
    ensures var close := Closing(config, style);
            && p + 1 + |close.text| <= |s|
            && Scan(config, s, Lexed(ModeOf(style), p))
               == (Token(close.kind, p + 1, p + 1 + |close.text|), Lexed(InText, Behind(config, s, style, p + 1 + |close.text|)))
  {
    hide Word;
    var close := Closing(config, style).text;
    StartChar(s, p + 1, close);
    assert !Space(close[0]);
    assert SkipBlanks(s, p + 1, close) == p + 1;
    assert SkipBlanks(s, p, close) == p + 1;
  }

  lemma WordScans(config: Config, s: string, p: nat, style: Style, w: Lexeme)
    requires Delimiting(config) && p < |s| && s[p] == ' ' && WordOk(w)
    requires StartsAt(s, p + 1, w.text) && p + 1 + |w.text| < |s| && s[p + 1 + |w.text|] == ' '
    requires CloseOk(Closing(config, style).text, [w])
    ensures Scan(config, s, Lexed(ModeOf(style), p))
         == (Token(w.kind, p + 1, p + 1 + |w.text|), Lexed(ModeOf(style), p + 1 + |w.text|))
  {
    hide Word, WordOk;
    var close := Closing(config, style).text;
    WordStarts(w);
    StartChar(s, p + 1, w.text);
    assert !StartsAt([w][0].text, 0, close);
    CloseNotHere(s, p + 1, w.text, close);
    assert SkipBlanks(s, p + 1, close) == p + 1;
    assert SkipBlanks(s, p, close) == p + 1;
    WordLexes(s, p + 1, w);
  }

  // ----- Chunks -----

  lemma OpenerAtIs(config: Config, s: string, i: nat)
    requires i <= |s|
    ensures OpenerAt(config, s, i) == OpenerOf(config, EndsLine(s[..i]), s[i..])
  {
    forall t: string ensures StartsAt(s, i, t) <==> StartsAt(s[i..], 0, t) {
      if i + |t| <= |s| { assert s[i..][0..|t|] == s[i..i + |t|]; }
    }
  }

  lemma {:induction false} NextOpenerIs(config: Config, s: string, i: nat, j: nat)
    requires i <= j <= |s| && (forall k :: i <= k < j ==> OpenerAt(config, s, k).None?)
    requires j == |s| || OpenerAt(config, s, j).Some?
    ensures NextOpener(config, s, i) == j
    decreases j - i
  {
    hide OpenerAt;
    if i < j { NextOpenerIs(config, s, i + 1, j); }
  }

  lemma {:induction false} FindIs(s: string, t: string, i: nat, j: nat)
    requires i <= j <= |s| && (forall k :: i <= k < j ==> !StartsAt(s, k, t)) && StartsAt(s, j, t)
    ensures Find(s, t, i) == Some(j)
    decreases j - i
  {
    hide StartsAt;
    if i < j { FindIs(s, t, i + 1, j); }
  }

  /** An opening sequence right behind a token is read without a text token. */
  lemma OpenerComes(config: Config, s: string, p: nat, m: Mode)
    requires Delimiting(config) && p < |s| && OpenerAt(config, s, p) == Some(m)
    ensures Ready(config, s, Lexed(m, p)) && Starts(m) && Opening(config, m) != ""
    ensures Lexemes(config, s, Lexed(InText, p)) == Lexemes(config, s, Lexed(m, p))
    ensures var q := p + |Opening(config, m)|;
            && q <= |s|
            && Lexemes(config, s, Lexed(m, p))
               == [Lexeme(OpenKind(m), Opening(config, m))] + Lexemes(config, s, Lexed(BodyOf(m), q))
  {
    hide Lexemes;
    OneToken(config, s, Lexed(InText, p));
    OneToken(config, s, Lexed(m, p));
  }

  lemma TextComes(config: Config, s: string, p: nat, j: nat)
    requires Delimiting(config) && p < j <= |s| && NextOpener(config, s, p) == j
    requires !(j < |s| && config.lstripBlocks && StripsAt(config, s, j))
    ensures Lexemes(config, s, Lexed(InText, p)) == [Lexeme(Text, s[p..j])] + Lexemes(config, s, Lexed(InText, j))
  {
    hide Lexemes, OpenerAt, ClearFinalLine;
    OneToken(config, s, Lexed(InText, p));
    if j < |s| { OpenerComes(config, s, j, OpenerAt(config, s, j).value); }
  }

  predicate StripsAt(config: Config, s: string, j: nat) {
    OpenerAt(config, s, j) == Some(StatementStart) || OpenerAt(config, s, j) == Some(CommentStart)
  }

  /** A text before an opening sequence that takes its indentation. */
  lemma StrippedComes(config: Config, s: string, p: nat, j: nat)
    requires Delimiting(config) && p < j < |s| && NextOpener(config, s, p) == j && config.lstripBlocks && StripsAt(config, s, j)
    ensures Lexemes(config, s, Lexed(InText, p)) == Stripped(s[p..j], Lexemes(config, s, Lexed(InText, j)))
  {
    hide Lexemes, OpenerAt, ClearFinalLine, Kept;
    var m := OpenerAt(config, s, j).value;
    OneToken(config, s, Lexed(InText, p));
    OpenerComes(config, s, j, m);
    ClearKeeps(s, p, j);
    var e := p + |Kept(s[p..j])|;
    assert e <= j && Kept(s[p..j]) == s[p..e];
    if e == p {
      var q := j + |Opening(config, m)|;
      assert s[p..q] == s[p..j] + s[j..q];
      assert s[j..q] == Opening(config, m);
    }
  }

  lemma ClearKeeps(s: string, p: nat, j: nat)
    requires p <= j <= |s|
    ensures var kept := Kept(s[p..j]); ClearFinalLine(s, p, j) == p + |kept| <= j && kept == s[p..p + |kept|]
  {
    BlanksBefore(s, p, j);
    var b := BeforeSpaces(s, p, j);
    if b > p { assert s[p..b][b - p - 1] == s[b - 1]; }
  }

  lemma {:induction false} BlanksBefore(s: string, p: nat, j: nat)
    requires p <= j <= |s|
    ensures WithoutBlanks(s[p..j]) == s[p..BeforeSpaces(s, p, j)]
    decreases j
  {
    if p < j {
      assert s[p..j][..j - p - 1] == s[p..j - 1] && s[p..j][j - p - 1] == s[j - 1];
      BlanksBefore(s, p, j - 1);
    }
  }

  lemma RemarkComes(config: Config, s: string, p: nat, text: string)
    requires Delimiting(config) && p + |text| <= |s| && Find(s, config.commentClose, p) == Some(p + |text|)
    ensures var q := p + |text| + |config.commentClose|;
            && q <= |s|
            && Lexemes(config, s, Lexed(CommentBody, p))
               == [Lexeme(CommentClose, s[p..q])] + Lexemes(config, s, Lexed(InText, Behind(config, s, Statement, q)))
  {
    hide Lexemes;
    OneToken(config, s, Lexed(CommentBody, p));
  }

  /** Behind `p` comes what was written for `cs`. */
  ghost predicate Holds(config: Config, s: string, p: nat, cs: seq<Chunk>) {
    Delimiting(config) && p <= |s| && s[p..] == Write(config, cs) && Writable(config, s[..p], cs)
  }

  lemma HoldsNext(config: Config, s: string, p: nat, cs: seq<Chunk>)
    requires Holds(config, s, p, cs) && cs != []
    ensures p + |WriteChunk(config, cs[0])| <= |s| && Holds(config, s, p + |WriteChunk(config, cs[0])|, cs[1..])
    ensures StartsAt(s, p, WriteChunk(config, cs[0]))
  {
    hide WriteChunk, OpenerOf;
    var w := WriteChunk(config, cs[0]);
    PieceAt(s, p, w, Write(config, cs[1..]));
    assert s[..p + |w|] == s[..p] + w;
  }

  lemma OpenerHere(config: Config, s: string, p: nat, cs: seq<Chunk>)
    requires Holds(config, s, p, cs) && cs != [] && !cs[0].Raw?
    ensures p < |s| && OpenerAt(config, s, p) == Some(StartOf(cs[0]))
  {
    hide OpenerOf, OpenerAt;
    OpenerAtIs(config, s, p);
    OpenerNotAtEnd(config, s, p);
  }

  lemma OpenerNotAtEnd(config: Config, s: string, p: nat)
    requires Delimiting(config) && p <= |s| && OpenerAt(config, s, p).Some?
    ensures p < |s|
  {
  }

  lemma PlainHere(config: Config, s: string, p: nat, cs: seq<Chunk>)
    requires Holds(config, s, p, cs) && cs != [] && cs[0].Raw?
    ensures forall k :: p <= k < p + |cs[0].text| && k <= |s| ==> OpenerAt(config, s, k).None?
  {
    hide OpenerOf, OpenerAt;
    var text, rest := cs[0].text, Write(config, cs[1..]);
    assert s[p..] == text + rest && PlainText(config, s[..p], text, rest);
    hide Writable, Write;
    forall k | p <= k < p + |text| && k <= |s| ensures OpenerAt(config, s, k).None? {
      OpenerAtIs(config, s, k);
      assert s[..k] == s[..p] + text[..k - p];
      assert s[k..] == s[p..][k - p..] == text[k - p..] + rest;
    }
  }

  lemma RawLexes(config: Config, s: string, p: nat, cs: seq<Chunk>)
    requires Holds(config, s, p, cs) && cs != [] && cs[0].Raw?
    ensures var q := p + |cs[0].text|;
            && q <= |s|
            && Lexemes(config, s, Lexed(InText, p)) ==
               if Strips(config, cs[1..]) then Stripped(cs[0].text, Lexemes(config, s, Lexed(InText, q)))
               else [Lexeme(Text, cs[0].text)] + Lexemes(config, s, Lexed(InText, q))
  {
    hide OpenerOf, OpenerAt, Lexemes, PlainText, CloseOk, WordOk, Closing, Opening, WriteWords, Stripped;
    var q := p + |cs[0].text|;
    HoldsNext(config, s, p, cs);
    PlainHere(config, s, p, cs);
    if cs[1..] != [] { OpenerHere(config, s, q, cs[1..]); } else { assert |s[q..]| == 0; }
    NextOpenerIs(config, s, p, q);
    assert s[p..q] == cs[0].text;
    if Strips(config, cs[1..]) { StrippedComes(config, s, p, q); } else { TextComes(config, s, p, q); }
  }

  lemma RemarkLexes(config: Config, s: string, p: nat, cs: seq<Chunk>)
    requires Holds(config, s, p, cs) && cs != [] && cs[0].Remark?
    ensures var q := p + |WriteChunk(config, cs[0])|;
            && q <= |s|
            && Lexemes(config, s, Lexed(InText, p)) == ListedChunk(config, cs[0]) + Lexemes(config, s, Lexed(InText, q))
  {
    hide OpenerOf, OpenerAt, Lexemes, Find, Writable, StartsAt, Write, WriteChunk, ListedChunk, Behind, Trailer;
    var text, close := cs[0].text, config.commentClose;
    var o := p + |config.commentOpen|;
    OpenerHere(config, s, p, cs);
    OpenerComes(config, s, p, CommentStart);
    RemarkPlain(config, s, p, cs);
    RemarkWritten(config, cs);
    var rest := Trailer(config, cs[0]) + Write(config, cs[1..]);
    PieceAt(s, p, config.commentOpen, text + close + rest);
    PieceAt(s, o, text + close, rest);
    RemarkFound(s, o, text, close);
    RemarkComes(config, s, o, text);
    var q := o + |text| + |close|;
    TrailerPassed(config, s, Statement, q, cs[0], Write(config, cs[1..]));
    TwoLexemes(Lexeme(CommentOpen, config.commentOpen), Lexeme(CommentClose, text + close),
               Lexemes(config, s, Lexed(InText, q + |Trailer(config, cs[0])|)));
  }

  lemma TwoLexemes(a: Lexeme, b: Lexeme, rest: seq<Lexeme>)
    ensures [a] + ([b] + rest) == [a, b] + rest
  {
  }

  lemma RemarkWritten(config: Config, cs: seq<Chunk>)
    requires cs != [] && cs[0].Remark?
    ensures var close := config.commentClose;
            && Write(config, cs) == config.commentOpen + (cs[0].text + close + (Trailer(config, cs[0]) + Write(config, cs[1..])))
            && |WriteChunk(config, cs[0])| == |config.commentOpen| + |cs[0].text| + |close| + |Trailer(config, cs[0])|
            && ListedChunk(config, cs[0])
               == [Lexeme(CommentOpen, config.commentOpen), Lexeme(CommentClose, cs[0].text + close)]
  {
    hide Trailer, Opening, Closing, WriteWords;
    var text, close, trailer := cs[0].text, config.commentClose, Trailer(config, cs[0]);
    var rest := Write(config, cs[1..]);
    assert Write(config, cs) == config.commentOpen + (text + close + trailer) + rest;
    Rebracket(config.commentOpen, text + close, trailer, rest);
  }

  lemma Rebracket(a: string, b: string, c: string, d: string)
    ensures a + (b + c) + d == a + (b + (c + d))
  {
  }

  /** The line end that is written behind a statement or a comment is the one that is passed over. */
  lemma TrailerPassed(config: Config, s: string, style: Style, q: nat, c: Chunk, rest: string)
    requires q <= |s| && s[q..] == Trailer(config, c) + rest && !c.Raw? && (style.Statement? <==> Block(c))
    ensures Behind(config, s, style, q) == q + |Trailer(config, c)|
  {
    if config.trimBlocks && Block(c) { assert s[q..][0] == '\n'; }
  }

  lemma RemarkFound(s: string, o: nat, text: string, close: string)
    requires o <= |s| && StartsAt(s, o, text + close)
    requires forall i :: 0 <= i < |text| ==> !StartsAt(text + close, i, close)
    ensures o + |text| + |close| <= |s| && s[o..o + |text| + |close|] == text + close
    ensures Find(s, close, o) == Some(o + |text|)
  {
    forall k | o <= k < o + |text| ensures !StartsAt(s, k, close) {
      WithinPiece(s, o, text + close, k - o, close);
    }
    assert (text + close)[|text|..|text| + |close|] == close;
    WithinPiece(s, o, text + close, |text|, close);
    hide StartsAt;
    FindIs(s, close, o, o + |text|);
  }

  lemma RemarkPlain(config: Config, s: string, p: nat, cs: seq<Chunk>)
    requires Holds(config, s, p, cs) && cs != [] && cs[0].Remark?
    ensures var close := config.commentClose;
            forall i :: 0 <= i < |cs[0].text| ==> !StartsAt(cs[0].text + close, i, close)
  {
  }

  lemma WithinPiece(s: string, p: nat, w: string, i: nat, v: string)
    requires StartsAt(s, p, w) && i + |v| <= |w|
    ensures StartsAt(s, p + i, v) <==> StartsAt(w, i, v)
  {
    forall k | i <= k < i + |v| ensures w[k] == s[p + k] { assert s[p..p + |w|][k] == s[p + k]; }
    assert s[p + i..p + i + |v|] == w[i..i + |v|];
  }

  lemma TagLexes(config: Config, s: string, p: nat, cs: seq<Chunk>)
    requires Holds(config, s, p, cs) && cs != [] && cs[0].Tag?
    ensures var q := p + |WriteChunk(config, cs[0])|;
            && q <= |s|
            && Lexemes(config, s, Lexed(InText, p)) == ListedChunk(config, cs[0]) + Lexemes(config, s, Lexed(InText, q))
  {
    hide OpenerOf, OpenerAt, Lexemes, WordOk, WriteWords, CloseOk, Closing, Opening, Trailer, Behind;
    var c := cs[0];
    var m, close := StartOf(c), Closing(config, c.style);
    OpenerHere(config, s, p, cs);
    OpenerComes(config, s, p, m);
    var o := p + |Opening(config, m)|;
    var rest := Write(config, cs[1..]);
    var words, trailer := WriteWords(c.words, close.text), Trailer(config, c);
    assert s[p..] == Opening(config, m) + (words + (trailer + rest));
    PieceAt(s, p, Opening(config, m), words + (trailer + rest));
    PieceAt(s, o, words, trailer + rest);
    WordsLex(config, s, o, c.style, c.words, trailer + rest);
    TrailerPassed(config, s, c.style, o + |words|, c, rest);
    assert BodyOf(m) == ModeOf(c.style);
  }

  lemma {:induction false} ChunksLex(config: Config, s: string, p: nat, cs: seq<Chunk>)
    requires Holds(config, s, p, cs)
    ensures Lexemes(config, s, Lexed(InText, p)) == Listed(config, cs)
    decreases |cs|
  {
    hide Lexemes, Writable, WriteChunk, ListedChunk;
    if cs == [] {
      assert |s[p..]| == 0 && s[p..p] == "";
      OneToken(config, s, Lexed(InText, p));
    } else {
      var q := p + |WriteChunk(config, cs[0])|;
      HoldsNext(config, s, p, cs);
      ChunksLex(config, s, q, cs[1..]);
      match cs[0] {
        case Raw(text) =>
          RawLexes(config, s, p, cs);
          RawChunk(config, text);
        case Remark(_) => RemarkLexes(config, s, p, cs);
        case Tag(_, _) => TagLexes(config, s, p, cs);
      }
    }
  }

  lemma RawChunk(config: Config, text: string)
    ensures WriteChunk(config, Raw(text)) == text && ListedChunk(config, Raw(text)) == [Lexeme(Text, text)]
  {
  }

  /** A written source lexes back to exactly the tokens it was written from. */
  lemma WrittenSourceLexes(config: Config, cs: seq<Chunk>)
    requires Delimiting(config) && Writable(config, "", cs)
    ensures Lexemes(config, Write(config, cs), Lexed(InText, 0)) == Listed(config, cs)
  {
    hide Lexemes, Writable, Write, Listed;
    var s := Write(config, cs);
    assert s[0..] == s && s[..0] == "";
    ChunksLex(config, s, 0, cs);
  }
}
