/** The lexer object: the loops that move its position, each against what it is to find. */
module TemplateLexer {
  import opened Options
  import opened Lexing

  class Lexer {
    const config: Config
    var input: string
    var mode: Mode
    var tokStart: nat
    var pos: nat

    ghost function State(): Lexed reads this { Lexed(mode, pos) }

    constructor (config: Config)
      ensures this.config == config && input == "" && State() == Lexed(InText, 0)
    {
      this.config := config;
      input, mode, tokStart, pos := "", InText, 0, 0;
    }

    method Start(source: string)
      modifies this
      ensures input == source && State() == Lexed(InText, 0)
    {
      input, mode, tokStart, pos := source, InText, 0, 0;
    }

    method Scan() returns (t: Token)
      requires Usable(config) && Ready(config, input, State())
      modifies this`mode, this`tokStart, this`pos
      ensures (t, State()) == Lexing.Scan(config, input, old(State()))
    {
      hide OpenerAt, NextOpener, ScanBody, SkipNewline, Opening;
      tokStart := pos;
      if tokStart >= |input| { return Token(Eof, pos, pos); }
      if mode.InText? {
        var done;
        done, t := FindOpening();
        if done { return; }
      }
      if mode.ExpressionBody? {
        t := ScanClosed(config.expressionClose, ExpressionClose, false);
      } else if mode.LineBody? {
        t := ScanClosed("\n", LineStatementClose, false);
      } else if mode.StatementBody? {
        t := ScanClosed(config.statementClose, StatementClose, config.trimBlocks);
      } else if mode.CommentBody? {
        var found := Find(input, config.commentClose, pos);
        if found.None? {
          pos := |input|;
          return Token(Eof, tokStart, pos);
        }
        mode := InText;
        pos := found.value + |config.commentClose|;
        t := Token(CommentClose, tokStart, pos);
        if config.trimBlocks { SkipLineEnd(); }
      } else {
        pos := pos + |Opening(config, mode)|;
        t := Token(OpenKind(mode), tokStart, pos);
        mode := BodyOf(mode);
      }
    }

    /** The text up to the next opening sequence; not done when there is none left of it, and the sequence comes at once. */
    method FindOpening() returns (done: bool, t: Token)
      requires Usable(config) && mode.InText? && tokStart == pos < |input|
      modifies this`mode, this`pos
      ensures done ==> (t, State()) == ScanText(config, input, tokStart)
      ensures !done ==> Starts(mode) && ScanOpening(config, tokStart, State()) == ScanText(config, input, tokStart)
    {
      hide OpenerAt, ClearFinalLine, Opening;
      t := Token(Text, tokStart, pos);
      while mode.InText?
        invariant tokStart <= pos <= |input|
        invariant mode.InText? ==> NextOpener(config, input, tokStart) == NextOpener(config, input, pos)
        invariant !mode.InText? ==> Starts(mode) && ScanOpening(config, tokStart, State()) == ScanText(config, input, tokStart)
        decreases mode.InText?, |input| - pos
      {
        var open := FindFirstOf(input, config.openChars, pos);
        SkipToOpenChar(config, input, pos);
        if open.None? {
          pos := |input|;
          return true, Token(Text, tokStart, pos);
        }
        pos := open.value;
        var opener := OpenerAt(config, input, pos);
        if opener.None? {
          pos := pos + 1;
        } else {
          OpenerStarts(config, input, pos);
          mode := opener.value;
          var end := pos;
          if config.lstripBlocks && (mode.StatementStart? || mode.CommentStart?) {
            end := ClearLine(tokStart, pos);
          }
          if tokStart < end { return true, Token(Text, tokStart, end); }
        }
      }
      done := false;
    }

    /** `scan_body` */
    method ScanClosed(close: string, closeKind: Kind, trim: bool) returns (t: Token)
      requires tokStart == pos < |input|
      modifies this`mode, this`tokStart, this`pos
      ensures (t, State()) == ScanBody(input, old(State()), close, closeKind, trim)
    {
      hide Word, SkipNewline, StartsAt;
      SkipBlank(close);
      hide SkipBlanks;
      if tokStart >= |input| { return Token(Eof, |input|, |input|); }
      if StartsAt(input, tokStart, close) {
        CloseFits(input, tokStart, close);
        mode := InText;
        pos := tokStart + |close|;
        t := Token(closeKind, tokStart, pos);
        if trim { SkipLineEnd(); }
        return;
      }
      t := ScanWord();
    }

    method SkipBlank(close: string)
      requires tokStart <= |input|
      modifies this`tokStart
      ensures tokStart == SkipBlanks(input, old(tokStart), close)
    {
      hide StartsAt;
      while tokStart < |input| && (Space(input[tokStart]) || (!StartsAt(input, tokStart, close) && input[tokStart] == '\n'))
        invariant tokStart <= |input|
        invariant SkipBlanks(input, tokStart, close) == SkipBlanks(input, old(tokStart), close)
        decreases |input| - tokStart
      {
        tokStart := tokStart + 1;
      }
    }

    method ScanWord() returns (t: Token)
      requires tokStart < |input|
      modifies this`pos
      ensures t == Token(Word(input, tokStart).0, tokStart, pos) && pos == Word(input, tokStart).1
    {
      var c := input[tokStart];
      pos := tokStart + 1;
      if Alpha(c) || c == '_' {
        while pos < |input| && IdChar(input[pos])
          invariant tokStart < pos <= |input| && IdEnd(input, pos) == IdEnd(input, tokStart + 1)
        {
          pos := pos + 1;
        }
        return Token(Id, tokStart, pos);
      }
      if Digit(c) || c == '-' {
        while pos < |input| && NumberChar(input[pos])
          invariant tokStart < pos <= |input| && NumberEnd(input, pos) == NumberEnd(input, tokStart + 1)
        {
          pos := pos + 1;
        }
        return Token(Number, tokStart, pos);
      }
      if c == '"' {
        ScanString(c);
        return Token(String, tokStart, pos);
      }
      var twice := pos < |input| && input[pos] == '=' && c in "><=!";
      if twice { pos := pos + 1; }
      t := Token(Word(input, tokStart).0, tokStart, pos);
    }

    method ScanString(quote: char)
      requires pos <= |input|
      modifies this`pos
      ensures pos == StringEnd(input, old(pos), quote, false)
    {
      var escape := false;
      while pos < |input|
        invariant pos <= |input|
        invariant StringEnd(input, pos, quote, escape) == StringEnd(input, old(pos), quote, false)
        decreases |input| - pos
      {
        var c := input[pos];
        pos := pos + 1;
        if c == '\\' {
          escape := true;
        } else if !escape && c == quote {
          return;
        } else {
          escape := false;
        }
      }
    }

    method SkipLineEnd()
      requires pos <= |input|
      modifies this`pos
      ensures pos == SkipNewline(input, old(pos))
    {
      if pos < |input| {
        var c := input[pos];
        if c == '\n' {
          pos := pos + 1;
        } else if c == '\r' {
          pos := pos + 1;
          if pos < |input| && input[pos] == '\n' { pos := pos + 1; }
        }
      }
    }

    /** `clear_final_line_if_whitespace` */
    method ClearLine(start: nat, end: nat) returns (e: nat)
      requires start <= end <= |input|
      ensures e == ClearFinalLine(input, start, end) && start <= e <= end
    {
      e := end;
      while start < e
        invariant start <= e <= end && BeforeSpaces(input, start, e) == BeforeSpaces(input, start, end)
      {
        var c := input[e - 1];
        if c == ' ' || c == '\t' {
          e := e - 1;
        } else if c == '\n' || c == '\r' {
          return;
        } else {
          return end;
        }
      }
    }
  }

  /** Skipping to the next open character passes no opening sequence. */
  lemma {:induction false} SkipToOpenChar(config: Config, s: string, i: nat)
    requires Usable(config) && i <= |s|
    ensures var open := FindFirstOf(s, config.openChars, i);
            && (open.None? ==> NextOpener(config, s, i) == |s|)
            && (open.Some? ==> NextOpener(config, s, i) == NextOpener(config, s, open.value))
    decreases |s| - i
  {
    hide OpenerAt;
    if i < |s| && s[i] !in config.openChars {
      OpenerNeedsOpenChar(config, s, i);
      SkipToOpenChar(config, s, i + 1);
    }
  }

  lemma OpenerStarts(config: Config, s: string, i: nat)
    requires OpenerAt(config, s, i).Some?
    ensures Starts(OpenerAt(config, s, i).value)
  {
  }

  lemma CloseFits(s: string, i: nat, close: string)
    requires StartsAt(s, i, close)
    ensures i + |close| <= |s|
  {
  }
}
