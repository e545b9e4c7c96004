/** What the lexer's scanning functions find, each said by the characters themselves. */
module LexerLaws {
  import opened Options
  import opened Lexing
  import opened LexerRoundTrip

  // ----- Words -----

  /** From `i` to the first character that does not go on; to the end if all do. */
  predicate RunEnds(s: string, i: nat, j: nat, goesOn: char -> bool) {
    i <= j <= |s| && (forall k :: i <= k < j ==> goesOn(s[k])) && (j < |s| ==> !goesOn(s[j]))
  }

  lemma {:induction false} IdEndExact(s: string, i: nat, j: nat)
    requires i <= |s|
    ensures IdEnd(s, i) == j <==> RunEnds(s, i, j, NamePart)
    decreases |s| - i
  {
    if i < |s| && NamePart(s[i]) { IdEndExact(s, i + 1, j); }
  }

  lemma {:induction false} NumberEndExact(s: string, i: nat, j: nat)
    requires i <= |s|
    ensures NumberEnd(s, i) == j <==> RunEnds(s, i, j, NumberPart)
    decreases |s| - i
  {
    if i < |s| && NumberPart(s[i]) { NumberEndExact(s, i + 1, j); }
  }

  /** A name starts with a letter or an underscore and reaches to the first character that is no part of a name. */
  lemma NameExact(s: string, i: nat, j: nat)
    requires i < |s|
    ensures Word(s, i) == (Id, j) <==> NameStart(s[i]) && RunEnds(s, i + 1, j, NamePart)
  {
    hide IdEnd, NumberEnd, StringEnd;
    IdEndExact(s, i + 1, j);
  }

  /** A number starts with a digit or a minus sign; signs, points and exponents go on wherever they stand. */
  lemma NumberExact(s: string, i: nat, j: nat)
    requires i < |s|
    ensures Word(s, i) == (Number, j) <==> NumberStart(s[i]) && RunEnds(s, i + 1, j, NumberPart)
  {
    hide IdEnd, NumberEnd, StringEnd;
    NumberEndExact(s, i + 1, j);
  }

  /** A quote behind `i` without a backslash right before it. */
  predicate Unescaped(s: string, i: nat, k: nat) { i < k < |s| && s[k] == '"' && s[k - 1] != '\\' }

  /** Behind the first unescaped quote behind `i`; the end of the source if there is none. */
  predicate StringCloses(s: string, i: nat, j: nat) {
    && i < j <= |s|
    && (forall k :: i < k < j - 1 ==> !Unescaped(s, i, k))
    && (Unescaped(s, i, j - 1) || (j == |s| && !Unescaped(s, i, j - 1)))
  }

  lemma {:induction false} StringEndIs(s: string, i: nat, p: nat)
    requires i < p <= |s| && forall k :: i < k < p ==> !Unescaped(s, i, k)
    ensures StringCloses(s, i, StringEnd(s, p, '"', s[p - 1] == '\\'))
    decreases |s| - p
  {
    if p < |s| && !Unescaped(s, i, p) { StringEndIs(s, i, p + 1); }
  }

  /** A string ends with the first quote that has no backslash right before it, even if that backslash is escaped itself. */
  lemma StringExact(s: string, i: nat, j: nat)
    requires i < |s|
    ensures Word(s, i) == (String, j) <==> s[i] == '"' && StringCloses(s, i, j)
  {
    hide IdEnd, NumberEnd, StringEnd;
    if s[i] == '"' {
      StringEndIs(s, i, i + 1);
      assert StringCloses(s, i, Word(s, i).1);
    }
  }

  /** The text of the tokens that have only one. */
  function Sign(kind: Kind): string {
    match kind
    case Comma => ","
    case Colon => ":"
    case LeftParen => "("
    case RightParen => ")"
    case LeftBracket => "["
    case RightBracket => "]"
    case LeftBrace => "{"
    case RightBrace => "}"
    case Equal => "=="
    case NotEqual => "!="
    case GreaterThan => ">"
    case GreaterEqual => ">="
    case LessThan => "<"
    case LessEqual => "<="
    case _ => ""
  }

  /** The sign that stands at `i`, the longer one where two start there. */
  predicate SignAt(s: string, i: nat, kind: Kind) {
    Sign(kind) != "" && StartsAt(s, i, Sign(kind)) && (kind.GreaterThan? || kind.LessThan? ==> !StartsAt(s, i + 1, "="))
  }

  /** A sign is read exactly where it stands; what starts no word and no sign is one unknown character. */
  lemma SignExact(s: string, i: nat, kind: Kind)
    requires i < |s| && Sign(kind) != ""
    ensures Word(s, i).0 == kind <==> SignAt(s, i, kind)
    ensures SignAt(s, i, kind) ==> Word(s, i).1 == i + |Sign(kind)|
  {
    hide IdEnd, NumberEnd, StringEnd;
    assert s[i..i + 1] == [s[i]];
    if i + 1 < |s| { assert s[i + 1..i + 2] == [s[i + 1]] && s[i..i + 2] == [s[i], s[i + 1]]; }
  }

  lemma UnknownExact(s: string, i: nat)
    requires i < |s|
    ensures Word(s, i) == (Unknown, i + 1) <==>
            !NameStart(s[i]) && !NumberStart(s[i]) && s[i] != '"' && forall kind :: !SignAt(s, i, kind)
  {
    var kind := Word(s, i).0;
    if Sign(kind) != "" { SignExact(s, i, kind); }
    forall other | SignAt(s, i, other) ensures kind == other { SignExact(s, i, other); }
  }

  // ----- Blanks -----

  /** A line end is passed over in a tag, unless the closing sequence starts with it. */
  predicate Passed(s: string, k: nat, close: string)
    requires k < |s|
  {
    s[k] == ' ' || s[k] == '\t' || s[k] == '\r' || (s[k] == '\n' && !StartsAt(s, k, close))
  }

  /** Inside a tag the next word, or its closing sequence, is looked for behind all that can be passed over. */
  lemma {:induction false} BlanksExact(s: string, i: nat, close: string, j: nat)
    requires i <= |s|
    ensures SkipBlanks(s, i, close) == j <==>
            i <= j <= |s| && (forall k :: i <= k < j ==> Passed(s, k, close)) && (j < |s| ==> !Passed(s, j, close))
    decreases |s| - i
  {
    hide StartsAt;
    if i < |s| && Passed(s, i, close) { BlanksExact(s, i + 1, close, j); }
  }

  // ----- Trimming -----

  /** The line end at `i`, with both of its characters where it has two. */
  predicate LineEndAt(s: string, i: nat, end: string) {
    && StartsAt(s, i, end) && (end == "" || end == "\n" || end == "\r" || end == "\r\n")
    && (end == "" ==> !StartsAt(s, i, "\n") && !StartsAt(s, i, "\r"))
    && (end == "\r" ==> !StartsAt(s, i, "\r\n"))
  }

  lemma NewlineExact(s: string, i: nat, end: string)
    requires i <= |s| && LineEndAt(s, i, end)
    ensures SkipNewline(s, i) == i + |end|
  {
    if i < |s| { assert s[i..i + 1] == [s[i]]; }
    if i + 1 < |s| { assert s[i..i + 2] == [s[i], s[i + 1]]; }
  }

  predicate Closer(kind: Kind) {
    kind.StatementClose? || kind.CommentClose? || kind.ExpressionClose? || kind.LineStatementClose?
  }

  lemma WordClosesNothing(s: string, i: nat)
    requires i < |s|
    ensures !Closer(Word(s, i).0)
  {
    hide IdEnd, NumberEnd, StringEnd;
  }

  lemma BodyCloses(s: string, l: Lexed, close: string, closeKind: Kind, trim: bool)
    requires l.pos <= |s| && Closer(closeKind)
    ensures var (t, l') := ScanBody(s, l, close, closeKind, trim);
            Closer(t.kind) ==>
              t.kind == closeKind && t.end <= |s| && l' == Lexed(InText, if trim then SkipNewline(s, t.end) else t.end)
  {
    hide Word, SkipNewline;
    var i := SkipBlanks(s, l.pos, close);
    if i < |s| { WordClosesNothing(s, i); }
  }

  /** With `trimBlocks` the line end behind a statement or a comment goes with it, and only there. */
  lemma TrimExact(config: Config, s: string, l: Lexed, end: string)
    requires Ready(config, s, l) && Usable(config)
    requires var (t, _) := Scan(config, s, l); Closer(t.kind) && LineEndAt(s, t.end, end)
    ensures var (t, l') := Scan(config, s, l);
            && l'.mode.InText?
            && l'.pos == t.end + if config.trimBlocks && (t.kind.StatementClose? || t.kind.CommentClose?) then |end| else 0
  {
    hide ScanBody, SkipNewline, Find, OpenerAt, NextOpener, ClearFinalLine, LineEndAt;
    var t := Scan(config, s, l).0;
    if t.end <= |s| { NewlineExact(s, t.end, end); }
    match l.mode {
      case ExpressionBody => BodyCloses(s, l, config.expressionClose, ExpressionClose, false);
      case LineBody => BodyCloses(s, l, "\n", LineStatementClose, false);
      case StatementBody => BodyCloses(s, l, config.statementClose, StatementClose, config.trimBlocks);
      case _ =>
    }
  }

  /** From `e` on there are only spaces and tabs, back to the start of the line or of the text. */
  predicate Indents(s: string, start: nat, e: nat, end: nat) {
    && start <= e <= end <= |s|
    && (forall k :: e <= k < end ==> s[k] == ' ' || s[k] == '\t')
    && (e == start || s[e - 1] == '\n' || s[e - 1] == '\r')
  }

  /** A text gives up the indentation before the tag behind it, and nothing where something else stands on that line. */
  lemma ClearExact(s: string, start: nat, end: nat, e: nat)
    requires start <= end <= |s|
    ensures ClearFinalLine(s, start, end) == e <==>
            Indents(s, start, e, end) || (e == end && forall i :: !Indents(s, start, i, end))
  {
    hide BeforeSpaces;
    var b := BeforeSpaces(s, start, end);
    SpacesBefore(s, start, end);
    forall i | Indents(s, start, i, end) ensures i == b {
    }
    assert Indents(s, start, b, end) <==> b == start || s[b - 1] == '\n' || s[b - 1] == '\r';
  }

  lemma {:induction false} SpacesBefore(s: string, start: nat, end: nat)
    requires start <= end <= |s|
    ensures var b := BeforeSpaces(s, start, end); start < b ==> s[b - 1] != ' ' && s[b - 1] != '\t'
    decreases end
  {
    if start < end { SpacesBefore(s, start, end - 1); }
  }

  /** With `lstripBlocks` the text before a statement or a comment gives up its indentation, and only there. */
  lemma StripExact(config: Config, s: string, start: nat)
    requires Usable(config) && start < |s| && Scan(config, s, Lexed(InText, start)).0.kind.Text?
    ensures var (t, l') := Scan(config, s, Lexed(InText, start));
            var strips := config.lstripBlocks && (l'.mode.StatementStart? || l'.mode.CommentStart?);
            && t.start == start
            && (Indents(s, start, t.end, l'.pos) || t.end == l'.pos)
            && (t.end != l'.pos ==> strips)
            && (strips && t.end == l'.pos ==> forall i :: Indents(s, start, i, l'.pos) ==> i == l'.pos)
  {
    hide OpenerAt, ClearFinalLine;
    var (t, l') := Scan(config, s, Lexed(InText, start));
    ClearExact(s, start, l'.pos, t.end);
    forall i | Indents(s, start, i, l'.pos) ensures ClearFinalLine(s, start, l'.pos) == i { ClearExact(s, start, l'.pos, i); }
  }
}
