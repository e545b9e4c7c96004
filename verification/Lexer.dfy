/** From template source to tokens. */
module Lexing {
  import opened Options

  datatype Config = Config(statementOpen: string, statementClose: string, lineStatement: string,
                           expressionOpen: string, expressionClose: string, commentOpen: string, commentClose: string,
                           openChars: string, trimBlocks: bool, lstripBlocks: bool)

  datatype Kind =
    | Text | ExpressionOpen | ExpressionClose | LineStatementOpen | LineStatementClose
    | StatementOpen | StatementClose | CommentOpen | CommentClose
    | Id | Number | String
    | Comma | Colon | LeftParen | RightParen | LeftBracket | RightBracket | LeftBrace | RightBrace
    | Equal | GreaterThan | GreaterEqual | LessThan | LessEqual | NotEqual
    | Unknown | Eof

  /** A token is a slice of the source. */
  datatype Token = Token(kind: Kind, start: nat, end: nat)

  datatype Mode =
    | InText | ExpressionStart | ExpressionBody | LineStart | LineBody
    | StatementStart | StatementBody | CommentStart | CommentBody

  datatype Lexed = Lexed(mode: Mode, pos: nat)

  // ----- Strings -----

  predicate StartsAt(s: string, i: nat, t: string) {
    i + |t| <= |s| && s[i..i + |t|] == t
  }

  /** `find` */
  function Find(s: string, t: string, from: nat): (r: Option<nat>)
    requires from <= |s|
    ensures r.Some? ==> from <= r.value && StartsAt(s, r.value, t)
    decreases |s| - from
  {
    if StartsAt(s, from, t) then Some(from) else if from == |s| then None else Find(s, t, from + 1)
  }

  /** `find_first_of` */
  function FindFirstOf(s: string, chars: string, from: nat): (r: Option<nat>)
    requires from <= |s|
    ensures match r
            case None => forall i :: from <= i < |s| ==> s[i] !in chars
            case Some(j) => from <= j < |s| && s[j] in chars && forall i :: from <= i < j ==> s[i] !in chars
    decreases |s| - from
  {
    if from == |s| then None else if s[from] in chars then Some(from) else FindFirstOf(s, chars, from + 1)
  }

  /** `update_open_chars` */
  function UpdateOpenChars(config: Config): Config
    requires Delimited(config)
  {
    var a := [config.lineStatement[0]];
    var b := if config.statementOpen[0] in a then a else a + [config.statementOpen[0]];
    var c := if config.expressionOpen[0] in b then b else b + [config.expressionOpen[0]];
    config.(openChars := if config.commentOpen[0] in c then c else c + [config.commentOpen[0]])
  }

  predicate Delimited(config: Config) {
    config.statementOpen != "" && config.lineStatement != "" && config.expressionOpen != "" && config.commentOpen != ""
  }

  /** Every opening sequence starts with one of the open characters. */
  predicate Usable(config: Config) {
    && Delimited(config)
    && config.statementOpen[0] in config.openChars && config.lineStatement[0] in config.openChars
    && config.expressionOpen[0] in config.openChars && config.commentOpen[0] in config.openChars
  }

  predicate Closes(config: Config) {
    config.expressionClose != "" && config.statementClose != "" && config.commentClose != ""
  }

  function DefaultConfig(): Config {
    Config("{%", "%}", "##", "{{", "}}", "{#", "#}", "#{", false, false)
  }

  lemma UpdatedIsUsable(config: Config)
    requires Delimited(config)
    ensures Usable(UpdateOpenChars(config)) && Usable(DefaultConfig()) && Closes(DefaultConfig())
  {
    var d := DefaultConfig();
    assert d.statementOpen[0] == '{' == d.expressionOpen[0] == d.commentOpen[0] && d.lineStatement[0] == '#';
    assert d.openChars[0] == '#' && d.openChars[1] == '{';
  }

  // ----- Text -----

  /** The opening sequence at `i`, tested in the parser's order. */
  function OpenerAt(config: Config, s: string, i: nat): Option<Mode> {
    if StartsAt(s, i, config.expressionOpen) then Some(ExpressionStart)
    else if StartsAt(s, i, config.statementOpen) then Some(StatementStart)
    else if StartsAt(s, i, config.commentOpen) then Some(CommentStart)
    else if (i == 0 || (i <= |s| && s[i - 1] == '\n')) && StartsAt(s, i, config.lineStatement) then Some(LineStart)
    else None
  }

  /** The first position from `i` on with an opening sequence, tested one by one; the end if there is none. */
  function NextOpener(config: Config, s: string, i: nat): (j: nat)
    requires i <= |s|
    ensures i <= j <= |s|
    ensures j < |s| ==> OpenerAt(config, s, j).Some?
    ensures forall k :: i <= k < j ==> OpenerAt(config, s, k).None?
    decreases |s| - i
  {
    if i == |s| || OpenerAt(config, s, i).Some? then i else NextOpener(config, s, i + 1)
  }

  function Opening(config: Config, mode: Mode): string {
    match mode
    case ExpressionStart => config.expressionOpen
    case StatementStart => config.statementOpen
    case LineStart => config.lineStatement
    case CommentStart => config.commentOpen
    case _ => ""
  }

  function OpenKind(mode: Mode): Kind {
    match mode
    case ExpressionStart => ExpressionOpen
    case StatementStart => StatementOpen
    case LineStart => LineStatementOpen
    case _ => CommentOpen
  }

  function BodyOf(mode: Mode): Mode {
    match mode
    case ExpressionStart => ExpressionBody
    case StatementStart => StatementBody
    case LineStart => LineBody
    case _ => CommentBody
  }

  predicate Starts(mode: Mode) {
    mode.ExpressionStart? || mode.StatementStart? || mode.LineStart? || mode.CommentStart?
  }

  /** `clear_final_line_if_whitespace`: where the text ends without the spaces and tabs of an otherwise blank last line. */
  function ClearFinalLine(s: string, start: nat, end: nat): nat
    requires start <= end <= |s|
  {
    var e := BeforeSpaces(s, start, end);
    if e == start || s[e - 1] == '\n' || s[e - 1] == '\r' then e else end
  }

  function BeforeSpaces(s: string, start: nat, end: nat): (e: nat)
    requires start <= end <= |s|
    ensures start <= e <= end
    ensures forall k :: e <= k < end ==> s[k] == ' ' || s[k] == '\t'
    decreases end
  {
    if start < end && (s[end - 1] == ' ' || s[end - 1] == '\t') then BeforeSpaces(s, start, end - 1) else end
  }

  // ----- Inside a tag -----

  predicate Space(c: char) { c == ' ' || c == '\t' || c == '\r' }

  /** The next position that is neither blank nor, unless it closes the tag, a line end. */
  function SkipBlanks(s: string, i: nat, close: string): (j: nat)
    requires i <= |s|
    ensures i <= j <= |s|
    ensures forall k :: i <= k < j ==> Space(s[k]) || s[k] == '\n'
    decreases |s| - i
  {
    if i < |s| && (Space(s[i]) || (!StartsAt(s, i, close) && s[i] == '\n')) then SkipBlanks(s, i + 1, close) else i
  }

  predicate Alpha(c: char) { 'a' <= c <= 'z' || 'A' <= c <= 'Z' }
  predicate Digit(c: char) { '0' <= c <= '9' }
  predicate IdChar(c: char) { Alpha(c) || Digit(c) || c in "./_-" }
  predicate NumberChar(c: char) { Digit(c) || c in ".eE+-" }

  function IdEnd(s: string, i: nat): (j: nat)
    requires i <= |s|
    ensures i <= j <= |s|
    decreases |s| - i
  {
    if i < |s| && IdChar(s[i]) then IdEnd(s, i + 1) else i
  }

  function NumberEnd(s: string, i: nat): (j: nat)
    requires i <= |s|
    ensures i <= j <= |s|
    decreases |s| - i
  {
    if i < |s| && NumberChar(s[i]) then NumberEnd(s, i + 1) else i
  }

  /** Behind the next unescaped `quote`. A backslash always escapes, even after another one. */
  function StringEnd(s: string, i: nat, quote: char, escape: bool): (j: nat)
    requires i <= |s|
    ensures i <= j <= |s|
    decreases |s| - i
  {
    if i == |s| then i
    else if s[i] == '\\' then StringEnd(s, i + 1, quote, true)
    else if !escape && s[i] == quote then i + 1
    else StringEnd(s, i + 1, quote, false)
  }

  function OneOrTwo(s: string, i: nat, one: Kind, two: Kind): (Kind, nat)
    requires i < |s|
  {
    if i + 1 < |s| && s[i + 1] == '=' then (two, i + 2) else (one, i + 1)
  }

  /** The token that starts at `i`, by its first character. */
  function Word(s: string, i: nat): (r: (Kind, nat))
    requires i < |s|
    ensures i < r.1 <= |s| && !r.0.Eof?
  {
    var c := s[i];
    if Alpha(c) || c == '_' then (Id, IdEnd(s, i + 1))
    else if Digit(c) || c == '-' then (Number, NumberEnd(s, i + 1))
    else if c == '"' then (String, StringEnd(s, i + 1, c, false))
    else if c == '>' then OneOrTwo(s, i, GreaterThan, GreaterEqual)
    else if c == '<' then OneOrTwo(s, i, LessThan, LessEqual)
    else if c == '=' then OneOrTwo(s, i, Unknown, Equal)
    else if c == '!' then OneOrTwo(s, i, Unknown, NotEqual)
    else (Mark(c), i + 1)
  }

  function Mark(c: char): (k: Kind)
    ensures !k.Eof?
  {
    if c == ',' then Comma
    else if c == ':' then Colon
    else if c == '(' then LeftParen
    else if c == ')' then RightParen
    else if c == '[' then LeftBracket
    else if c == ']' then RightBracket
    else if c == '{' then LeftBrace
    else if c == '}' then RightBrace
    else Unknown
  }

  function SkipNewline(s: string, i: nat): (j: nat)
    requires i <= |s|
    ensures i <= j <= |s|
    ensures forall k :: i <= k < j ==> Space(s[k]) || s[k] == '\n'
  {
    if i < |s| && s[i] == '\n' then i + 1
    else if i < |s| && s[i] == '\r' then if i + 1 < |s| && s[i + 1] == '\n' then i + 2 else i + 1
    else i
  }

  // ----- One scan -----

  /** The opening sequence that is about to be read is there. */
  predicate Ready(config: Config, s: string, l: Lexed) {
    l.pos <= |s| && (Starts(l.mode) ==> StartsAt(s, l.pos, Opening(config, l.mode)))
  }

  function Scan(config: Config, s: string, l: Lexed): (Token, Lexed)
    requires Ready(config, s, l)
  {
    if l.pos == |s| then (Token(Eof, l.pos, l.pos), l)
    else
      match l.mode
      case InText => ScanText(config, s, l.pos)
      case ExpressionBody => ScanBody(s, l, config.expressionClose, ExpressionClose, false)
      case LineBody => ScanBody(s, l, "\n", LineStatementClose, false)
      case StatementBody => ScanBody(s, l, config.statementClose, StatementClose, config.trimBlocks)
      case CommentBody => ScanComment(config, s, l)
      case _ => ScanOpening(config, l.pos, l)
  }

  function ScanText(config: Config, s: string, start: nat): (Token, Lexed)
    requires start < |s|
  {
    var j := NextOpener(config, s, start);
    if j == |s| then (Token(Text, start, j), Lexed(InText, j))
    else
      var l := Lexed(OpenerAt(config, s, j).value, j);
      var strips := config.lstripBlocks && (l.mode.StatementStart? || l.mode.CommentStart?);
      var end := if strips then ClearFinalLine(s, start, j) else j;
      if end == start then ScanOpening(config, start, l) else (Token(Text, start, end), l)
  }

  function ScanOpening(config: Config, start: nat, l: Lexed): (Token, Lexed) {
    var end := l.pos + |Opening(config, l.mode)|;
    (Token(OpenKind(l.mode), start, end), Lexed(BodyOf(l.mode), end))
  }

  function ScanBody(s: string, l: Lexed, close: string, closeKind: Kind, trim: bool): (Token, Lexed)
    requires l.pos <= |s|
  {
    var t := SkipBlanks(s, l.pos, close);
    if t == |s| then (Token(Eof, t, t), l)
    else if StartsAt(s, t, close) then
      var end := t + |close|;
      (Token(closeKind, t, end), Lexed(InText, if trim then SkipNewline(s, end) else end))
    else
      var (kind, end) := Word(s, t);
      (Token(kind, t, end), Lexed(l.mode, end))
  }

  function ScanComment(config: Config, s: string, l: Lexed): (Token, Lexed)
    requires l.pos <= |s|
  {
    match Find(s, config.commentClose, l.pos)
    case None => (Token(Eof, l.pos, |s|), Lexed(CommentBody, |s|))
    case Some(i) =>
      var end := i + |config.commentClose|;
      (Token(CommentClose, l.pos, end), Lexed(InText, if config.trimBlocks then SkipNewline(s, end) else end))
  }

  // ----- Progress -----

  /** What the open characters are for: where none stands there is no opening sequence. */
  lemma OpenerNeedsOpenChar(config: Config, s: string, i: nat)
    requires Usable(config) && i < |s| && s[i] !in config.openChars
    ensures OpenerAt(config, s, i).None?
  {
    StartChar(s, i, config.expressionOpen);
    StartChar(s, i, config.statementOpen);
    StartChar(s, i, config.commentOpen);
    StartChar(s, i, config.lineStatement);
  }

  lemma StartChar(s: string, i: nat, t: string)
    requires t != "" && i < |s|
    ensures StartsAt(s, i, t) ==> s[i] == t[0]
  {
    if StartsAt(s, i, t) { assert s[i..i + |t|][0] == s[i]; }
  }

  predicate Blank(s: string, i: nat, j: nat)
    requires i <= j <= |s|
  {
    forall k :: i <= k < j ==> s[k] == ' ' || s[k] == '\t' || s[k] == '\r' || s[k] == '\n'
  }

  /** A scan's token lies between the old and the new position, and what it leaves out there is blank. */
  predicate Consumes(s: string, l: Lexed, t: Token, l': Lexed) {
    && l.pos <= t.start <= t.end <= |s|
    && Blank(s, l.pos, t.start)
    && (t.kind.Eof? ==> t.end == |s|)
    && (!t.kind.Eof? ==> t.end <= l'.pos <= |s| && Blank(s, t.end, l'.pos))
  }

  lemma ScanConsumes(config: Config, s: string, l: Lexed)
    requires Ready(config, s, l) && Usable(config)
    ensures var (t, l') := Scan(config, s, l);
            && Ready(config, s, l')
            && Consumes(s, l, t, l')
            && (!t.kind.Eof? && Closes(config) ==> l.pos < l'.pos)
  {
    if l.pos < |s| {
      match l.mode {
        case InText => TextConsumes(config, s, l.pos);
        case ExpressionBody => BodyConsumes(s, l, config.expressionClose, ExpressionClose, false);
        case LineBody => BodyConsumes(s, l, "\n", LineStatementClose, false);
        case StatementBody => BodyConsumes(s, l, config.statementClose, StatementClose, config.trimBlocks);
        case CommentBody =>
        case _ =>
      }
    }
  }

  lemma TextConsumes(config: Config, s: string, start: nat)
    requires start < |s| && Usable(config)
    ensures var (t, l') := ScanText(config, s, start);
            Ready(config, s, l') && Consumes(s, Lexed(InText, start), t, l') && !t.kind.Eof? && start < l'.pos
  {
    var j := NextOpener(config, s, start);
    if j < |s| {
      var l := Lexed(OpenerAt(config, s, j).value, j);
      assert Starts(l.mode) && StartsAt(s, j, Opening(config, l.mode)) && Opening(config, l.mode) != "";
    }
  }

  lemma BodyConsumes(s: string, l: Lexed, close: string, closeKind: Kind, trim: bool)
    requires l.pos <= |s| && !Starts(l.mode) && !closeKind.Eof?
    ensures var (t, l') := ScanBody(s, l, close, closeKind, trim);
            && Consumes(s, l, t, l')
            && (l'.mode == l.mode || l'.mode.InText?)
            && (!t.kind.Eof? && close != "" ==> l.pos < l'.pos)
  {
  }

  /** The lexer after `n` scans from the start of the source. */
  function After(config: Config, s: string, n: nat): (l: Lexed)
    requires Usable(config)
    ensures Ready(config, s, l)
  {
    if n == 0 then Lexed(InText, 0)
    else
      ScanConsumes(config, s, After(config, s, n - 1));
      Scan(config, s, After(config, s, n - 1)).1
  }

  predicate Begins(s: string, t: string) { |t| <= |s| && s[..|t|] == t }

  /** Some source shows this opening sequence: no sequence that is tested before it is a prefix of it. */
  predicate Meetable(config: Config, mode: Mode) {
    match mode
    case StatementStart => !Begins(config.statementOpen, config.expressionOpen)
    case CommentStart =>
      !Begins(config.commentOpen, config.expressionOpen) && !Begins(config.commentOpen, config.statementOpen)
    case _ => true
  }

  /** Every tag and comment that can be opened has a closing sequence. */
  predicate ClosesWhatOpens(config: Config) {
    && config.expressionClose != ""
    && (Meetable(config, StatementStart) ==> config.statementClose != "")
    && (Meetable(config, CommentStart) ==> config.commentClose != "")
  }

  lemma LongerStart(s: string, i: nat, t: string, u: string)
    requires StartsAt(s, i, t) && Begins(t, u)
    ensures StartsAt(s, i, u)
  {
    assert s[i..i + |t|][..|u|] == s[i..i + |u|];
  }

  /** An opening sequence that is found can be met. */
  lemma FoundIsMeetable(config: Config, s: string, i: nat)
    requires OpenerAt(config, s, i).Some?
    ensures Meetable(config, OpenerAt(config, s, i).value) && Starts(OpenerAt(config, s, i).value)
  {
    match OpenerAt(config, s, i).value {
      case StatementStart =>
        if Begins(config.statementOpen, config.expressionOpen) { LongerStart(s, i, config.statementOpen, config.expressionOpen); }
      case CommentStart =>
        if Begins(config.commentOpen, config.expressionOpen) { LongerStart(s, i, config.commentOpen, config.expressionOpen); }
        if Begins(config.commentOpen, config.statementOpen) { LongerStart(s, i, config.commentOpen, config.statementOpen); }
      case _ =>
    }
  }

  /** The modes of a statement and of a comment are entered only where one opens. */
  predicate Opened(config: Config, l: Lexed) {
    && (l.mode.StatementStart? || l.mode.StatementBody? ==> Meetable(config, StatementStart))
    && (l.mode.CommentStart? || l.mode.CommentBody? ==> Meetable(config, CommentStart))
  }

  lemma ScanOpened(config: Config, s: string, l: Lexed)
    requires Ready(config, s, l) && Opened(config, l)
    ensures Opened(config, Scan(config, s, l).1)
  {
    hide Meetable, OpenerAt, SkipBlanks, Word, Find, SkipNewline, ClearFinalLine;
    if l.mode.InText? && l.pos < |s| {
      var j := NextOpener(config, s, l.pos);
      if j < |s| { FoundIsMeetable(config, s, j); }
    }
  }

  lemma {:induction false} AfterOpened(config: Config, s: string, n: nat)
    requires Usable(config)
    ensures Opened(config, After(config, s, n))
    decreases n
  {
    hide Scan;
    if n > 0 {
      AfterOpened(config, s, n - 1);
      ScanConsumes(config, s, After(config, s, n - 1));
      ScanOpened(config, s, After(config, s, n - 1));
    }
  }

  lemma OpenedMovesOn(config: Config, s: string, l: Lexed)
    requires Ready(config, s, l) && Usable(config) && Opened(config, l) && ClosesWhatOpens(config)
    ensures !Scan(config, s, l).0.kind.Eof? ==> l.pos < Scan(config, s, l).1.pos
  {
    hide Meetable, OpenerAt, Word, SkipNewline;
    if l.pos < |s| {
      match l.mode {
        case InText => TextConsumes(config, s, l.pos);
        case ExpressionBody => BodyConsumes(s, l, config.expressionClose, ExpressionClose, false);
        case LineBody => BodyConsumes(s, l, "\n", LineStatementClose, false);
        case StatementBody => BodyConsumes(s, l, config.statementClose, StatementClose, config.trimBlocks);
        case CommentBody =>
        case _ =>
      }
    }
  }

  /** The scan number `n` of `s` finds a token without moving on. */
  predicate Stalls(config: Config, s: string, n: nat)
    requires Usable(config)
  {
    var l := After(config, s, n);
    !Scan(config, s, l).0.kind.Eof? && Scan(config, s, l).1.pos <= l.pos
  }

  /**
   * For every configuration: no scan of any source ever finds a token without moving on, if and only if everything that
   * can be opened has a closing sequence.
   */
  lemma ProgressExact(config: Config)
    requires Usable(config)
    ensures ClosesWhatOpens(config) <==> forall s, n :: !Stalls(config, s, n)
  {
    hide Scan, After, Opened;
    if ClosesWhatOpens(config) {
      forall s, n ensures !Stalls(config, s, n) {
        AfterOpened(config, s, n);
        OpenedMovesOn(config, s, After(config, s, n));
      }
    } else {
      var mode := if config.expressionClose == "" then ExpressionStart
                  else if Meetable(config, StatementStart) && config.statementClose == "" then StatementStart else CommentStart;
      var y := OtherChar(config, |Opening(config, mode)|);
      EmptyCloseStalls(config, mode, y);
    }
  }

  /** A character that completes neither the expression's nor the statement's opening sequence at `i`. */
  function OtherChar(config: Config, i: nat): (y: char)
    ensures y == 'x' || y == 'y' || y == 'z'
    ensures i < |config.expressionOpen| ==> y != config.expressionOpen[i]
    ensures i < |config.statementOpen| ==> y != config.statementOpen[i]
  {
    if Avoids(config, i, 'x') then 'x' else if Avoids(config, i, 'y') then 'y' else 'z'
  }

  predicate Avoids(config: Config, i: nat, y: char) {
    && (i < |config.expressionOpen| ==> y != config.expressionOpen[i])
    && (i < |config.statementOpen| ==> y != config.statementOpen[i])
  }

  predicate ClosesEmpty(config: Config, mode: Mode) {
    && (mode.ExpressionStart? ==> config.expressionClose == "")
    && (mode.StatementStart? ==> config.statementClose == "")
    && (mode.CommentStart? ==> config.commentClose == "")
  }

  /** The source that stalls: the opening sequence with a character behind it; the second scan stands still. */
  lemma EmptyCloseStalls(config: Config, mode: Mode, y: char)
    requires Usable(config) && Meetable(config, mode) && ClosesEmpty(config, mode)
    requires mode.ExpressionStart? || mode.StatementStart? || mode.CommentStart?
    requires Avoids(config, |Opening(config, mode)|, y) && (y == 'x' || y == 'y' || y == 'z')
    ensures Stalls(config, Opening(config, mode) + [y], 1)
  {
    hide Scan;
    var open := Opening(config, mode);
    var s := open + [y];
    OpensFirst(config, mode, y);
    FirstScanOpens(config, s, mode);
    assert After(config, s, 0) == Lexed(InText, 0);
    assert After(config, s, 1) == Lexed(BodyOf(mode), |open|);
    SecondScanStalls(config, s, mode);
  }

  lemma OpensFirst(config: Config, mode: Mode, y: char)
    requires Usable(config) && Meetable(config, mode)
    requires mode.ExpressionStart? || mode.StatementStart? || mode.CommentStart?
    requires Avoids(config, |Opening(config, mode)|, y)
    ensures OpenerAt(config, Opening(config, mode) + [y], 0) == Some(mode)
  {
    var open := Opening(config, mode);
    var s := open + [y];
    assert s[0..|open|] == open;
    NotCompleted(open, y, config.expressionOpen);
    NotCompleted(open, y, config.statementOpen);
  }

  /** What is no prefix of `open` is completed neither by it nor by the character behind it. */
  lemma NotCompleted(open: string, y: char, t: string)
    requires |open| < |t| ==> y != t[|open|]
    ensures StartsAt(open + [y], 0, t) <==> Begins(open, t)
  {
    var s := open + [y];
    if |t| <= |open| {
      assert s[0..|t|] == open[..|t|];
    } else if |t| <= |s| {
      assert s[0..|t|][|open|] == y;
    }
  }

  lemma FirstScanOpens(config: Config, s: string, mode: Mode)
    requires Usable(config) && s != "" && OpenerAt(config, s, 0) == Some(mode)
    ensures Scan(config, s, Lexed(InText, 0)).1 == Lexed(BodyOf(mode), |Opening(config, mode)|)
  {
    hide OpenerAt;
    assert NextOpener(config, s, 0) == 0;
    assert BeforeSpaces(s, 0, 0) == 0;
  }

  lemma SecondScanStalls(config: Config, s: string, mode: Mode)
    requires Usable(config) && ClosesEmpty(config, mode)
    requires mode.ExpressionStart? || mode.StatementStart? || mode.CommentStart?
    requires var n := |Opening(config, mode)|; |s| == n + 1 && (s[n] == 'x' || s[n] == 'y' || s[n] == 'z')
    ensures var l := Lexed(BodyOf(mode), |Opening(config, mode)|);
            Ready(config, s, l) && !Scan(config, s, l).0.kind.Eof? && Scan(config, s, l).1.pos <= l.pos
  {
    hide Word, OpenerAt;
    var n := |Opening(config, mode)|;
    assert StartsAt(s, n, "");
    assert SkipBlanks(s, n, "") == n;
    assert Find(s, "", n) == Some(n);
    assert SkipNewline(s, n) == n;
  }

  // ----- The whole source -----

  /** All tokens up to the end of the source. */
  function Tokens(config: Config, s: string, l: Lexed): seq<Token>
    requires Ready(config, s, l) && Usable(config) && Closes(config)
    decreases |s| - l.pos
  {
    ScanConsumes(config, s, l);
    var (t, l') := Scan(config, s, l);
    [t] + if t.kind.Eof? then [] else Tokens(config, s, l')
  }

  /** The tokens follow each other, from `i` to the end, with only blanks between them. */
  predicate Tiles(s: string, ts: seq<Token>, i: nat)
    requires i <= |s|
  {
    if ts == [] then Blank(s, i, |s|)
    else i <= ts[0].start <= ts[0].end <= |s| && Blank(s, i, ts[0].start) && Tiles(s, ts[1..], ts[0].end)
  }

  lemma TilesFromBlank(s: string, ts: seq<Token>, i: nat, j: nat)
    requires i <= j <= |s| && Blank(s, i, j) && Tiles(s, ts, j)
    ensures Tiles(s, ts, i)
  {
  }

  lemma {:induction false} TokensTile(config: Config, s: string, l: Lexed)
    requires Ready(config, s, l) && Usable(config) && Closes(config)
    ensures Tiles(s, Tokens(config, s, l), l.pos)
    decreases |s| - l.pos
  {
    hide Scan, Blank;
    ScanConsumes(config, s, l);
    var (t, l') := Scan(config, s, l);
    if t.kind.Eof? {
      assert Tiles(s, [], |s|) by { BlankNowhere(s, |s|); }
    } else {
      TokensTile(config, s, l');
      TilesFromBlank(s, Tokens(config, s, l'), t.end, l'.pos);
    }
  }

  lemma BlankNowhere(s: string, i: nat)
    requires i <= |s|
    ensures Blank(s, i, i)
  {
  }

  predicate Covers(t: Token, i: nat) { t.start <= i < t.end }

  lemma {:induction false} TilesCover(s: string, ts: seq<Token>, from: nat, i: nat)
    requires from <= i < |s| && Tiles(s, ts, from)
    ensures forall a, b :: 0 <= a < b < |ts| ==> !(Covers(ts[a], i) && Covers(ts[b], i))
    ensures !Space(s[i]) && s[i] != '\n' ==> exists k :: 0 <= k < |ts| && Covers(ts[k], i)
    decreases |ts|
  {
    if ts != [] {
      if ts[0].end <= i {
        TilesCover(s, ts[1..], ts[0].end, i);
        forall a, b | 0 <= a < b < |ts| ensures !(Covers(ts[a], i) && Covers(ts[b], i)) {
          if a > 0 { assert ts[a] == ts[1..][a - 1] && ts[b] == ts[1..][b - 1]; }
        }
        if !Space(s[i]) && s[i] != '\n' {
          var k :| 0 <= k < |ts[1..]| && Covers(ts[1..][k], i);
          assert Covers(ts[k + 1], i);
        }
      } else {
        forall b | 0 < b < |ts| ensures !Covers(ts[b], i) {
          assert ts[b] == ts[1..][b - 1];
          TilesStartLater(s, ts[1..], ts[0].end, b - 1);
        }
        if !Space(s[i]) && s[i] != '\n' { assert Covers(ts[0], i); }
      }
    }
  }

  lemma {:induction false} TilesStartLater(s: string, ts: seq<Token>, from: nat, k: nat)
    requires from <= |s| && Tiles(s, ts, from) && k < |ts|
    ensures from <= ts[k].start
    decreases |ts|
  {
    if k > 0 { TilesStartLater(s, ts[1..], ts[0].end, k - 1); }
  }

  /** No character of the source is in two tokens, and every one but blanks and line ends is in one. */
  lemma NothingSkipped(config: Config, s: string, i: nat)
    requires Usable(config) && Closes(config) && i < |s|
    ensures var ts := Tokens(config, s, Lexed(InText, 0));
            && (forall a, b :: 0 <= a < b < |ts| ==> !(Covers(ts[a], i) && Covers(ts[b], i)))
            && (s[i] !in " \t\r\n" ==> exists k :: 0 <= k < |ts| && Covers(ts[k], i))
  {
    TokensTile(config, s, Lexed(InText, 0));
    TilesCover(s, Tokens(config, s, Lexed(InText, 0)), 0, i);
  }
}
