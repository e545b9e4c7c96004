/** What a client may write: sizes in either case with leading zeros and extensions, and the framing of responses. */
module BodyLaws {
  import opened Options
  import opened Buffers
  import opened Digits
  import opened ChunkedCoding
  import opened BodyMachine
  import opened BodyProofs

  // ----- Hexadecimal digits -----

  const LOWER := "0123456789abcdef"
  const UPPER := "0123456789ABCDEF"

  /** `c` writes the digit `d`, in one case or the other. */
  predicate WritesDigit(c: char, d: nat) {
    d < 16 && (c == LOWER[d] || c == UPPER[d])
  }

  /** A character is read as a digit exactly when it stands at that place of one of the two alphabets. */
  lemma HexDigitExact(c: char, d: nat)
    ensures HexDigit(c) == Some(d) <==> WritesDigit(c, d)
  {
    if d < 10 {
      assert LOWER[d] == UPPER[d] == '0' + d as char by { LowDigits(d); }
    } else if d < 16 {
      HighDigits(d);
    }
  }

  lemma LowDigits(d: nat)
    requires d < 10
    ensures LOWER[d] == '0' + d as char && UPPER[d] == '0' + d as char
  {
  }

  lemma HighDigits(d: nat)
    requires 10 <= d < 16
    ensures LOWER[d] == 'a' + (d - 10) as char && UPPER[d] == 'A' + (d - 10) as char
  {
  }

  // ----- Sizes as a client may write them -----

  predicate HexOnly(text: string) {
    forall i :: 0 <= i < |text| ==> text[i] in LOWER || text[i] in UPPER
  }

  /** The number a text of hexadecimal digits writes. */
  ghost function HexNumber(text: string): nat
    requires HexOnly(text)
    decreases |text|
  {
    if text == "" then 0
    else
      var c := text[|text| - 1];
      DigitExists(c);
      var d: nat :| WritesDigit(c, d);
      16 * HexNumber(text[..|text| - 1]) + d
  }

  lemma DigitExists(c: char)
    requires c in LOWER || c in UPPER
    ensures exists d: nat :: WritesDigit(c, d)
  {
    if c in LOWER {
      var d :| 0 <= d < |LOWER| && LOWER[d] == c;
      assert WritesDigit(c, d);
    } else {
      var d :| 0 <= d < |UPPER| && UPPER[d] == c;
      assert WritesDigit(c, d);
    }
  }

  lemma {:induction false} HexNumberIs(text: string)
    requires HexOnly(text)
    ensures IsHex(text) && HexValue(text) == HexNumber(text)
    decreases |text|
  {
    hide HexDigit, HexDigits, HexValue, HexOnly, WritesDigit;
    if text == "" {
      EmptyValue();
    } else {
      var front, c := text[..|text| - 1], text[|text| - 1];
      OnlyParts(text);
      HexNumberIs(front);
      DigitExists(c);
      var d: nat :| WritesDigit(c, d) && HexNumber(text) == 16 * HexNumber(front) + d;
      HexDigitExact(c, d);
      assert front + [c] == text;
      HexValueGrows(front, c);
    }
  }

  lemma OnlyParts(text: string)
    requires HexOnly(text) && text != ""
    ensures HexOnly(text[..|text| - 1]) && (text[|text| - 1] in LOWER || text[|text| - 1] in UPPER)
  {
  }

  // ----- Chunks as a client may write them -----

  /** A chunk with its size line: digits in either case, leading zeros, and an extension. */
  datatype Written = Written(size: string, extension: string, body: string)

  predicate WellWritten(c: Written) {
    && c.size != "" && HexOnly(c.size)
    && (c.extension == "" || ((c.extension[0] == ' ' || c.extension[0] == ';') && '\r' !in c.extension))
  }

  ghost predicate IsChunk(c: Written) {
    WellWritten(c) && 0 < |c.body| <= 0xffff_ffff_ffff_ffff && HexNumber(c.size) == |c.body|
  }

  ghost predicate IsLastChunk(c: Written) {
    WellWritten(c) && HexNumber(c.size) == 0 && c.body == ""
  }

  function SizeLine(c: Written): string { c.size + c.extension + "\r\n" }

  function WriteChunks(cs: seq<Written>): string {
    if cs == [] then "" else SizeLine(cs[0]) + cs[0].body + "\r\n" + WriteChunks(cs[1..])
  }

  function Bodies(cs: seq<Written>): string {
    if cs == [] then "" else cs[0].body + Bodies(cs[1..])
  }

  lemma SizeLineReads(c: Written, rest: string)
    requires WellWritten(c) && HexNumber(c.size) <= MAX64
    ensures ReadSize(SizeLine(c) + rest) == Size(HexNumber(c.size), rest)
  {
    hide HexNumber, HexValue, IsHex, HexOnly, HexDigit, HexPrefix, AfterDigits;
    var after := c.extension + "\r\n" + rest;
    HexNumberIs(c.size);
    NotHex(after[0]);
    PrefixIs(c.size, after);
    assert SizeLine(c) + rest == c.size + after;
    assert (c.size + after)[..|c.size|] == c.size && (c.size + after)[|c.size|..] == after;
    ExtensionRead(HexNumber(c.size), c.extension, rest);
  }

  lemma NotHex(c: char)
    requires c == ' ' || c == ';' || c == '\r'
    ensures HexDigit(c).None?
  {
  }

  lemma ExtensionRead(n: nat, extension: string, rest: string)
    requires extension == "" || ((extension[0] == ' ' || extension[0] == ';') && '\r' !in extension)
    ensures AfterDigits(n, extension + "\r\n" + rest) == Size(n, rest)
  {
    var s := extension + "\r\n" + rest;
    var lineEnd := "\n" + rest;
    assert lineEnd[1..] == rest;
    if extension == "" {
      assert s[1..] == lineEnd;
    } else {
      SkipsToCR(extension[1..], lineEnd);
      assert s[1..] == extension[1..] + "\r" + lineEnd;
    }
  }

  lemma {:induction false} SkipsToCR(front: string, rest: string)
    requires '\r' !in front
    ensures AfterCR(front + "\r" + rest) == Some(rest)
    decreases |front|
  {
    var s := front + "\r" + rest;
    if front == "" {
      assert s[1..] == rest;
    } else {
      SkipsToCR(front[1..], rest);
      assert s[1..] == front[1..] + "\r" + rest;
    }
  }

  /** The state after chunks have arrived. */
  function After(s: State, cs: seq<Written>): State {
    s.(body := s.body + Bodies(cs), chunkHeaders := s.chunkHeaders + |cs|, chunkCompletes := s.chunkCompletes + |cs|)
  }

  lemma {:induction false} ChunksRun(s: State, cs: seq<Written>, tail: string)
    requires s.phase.ChunkSizeDigit? && s.length == 0 && s.held == ""
    requires forall c :: c in cs ==> IsChunk(c)
    ensures Run(s, WriteChunks(cs) + tail) == Run(After(s, cs), tail)
    decreases |cs|
  {
    hide Step, Run, ReadSize, IsChunk, SizeLine;
    if cs == [] {
      assert WriteChunks(cs) + tail == tail && s.body + "" == s.body;
    } else {
      var c := cs[0];
      var more := WriteChunks(cs[1..]) + tail;
      OneChunkRuns(s, c, more);
      assert WriteChunks(cs) + tail == SizeLine(c) + (c.body + "\r\n" + more);
      ChunksRun(After(s, [c]), cs[1..], tail);
      AfterBoth(s, cs);
    }
  }

  lemma OneChunkRuns(s: State, c: Written, more: string)
    requires s.phase.ChunkSizeDigit? && s.length == 0 && s.held == "" && IsChunk(c)
    ensures Run(s, SizeLine(c) + (c.body + "\r\n" + more)) == Run(After(s, [c]), more)
  {
    hide Step, Run, ReadSize, HexNumber, SizeLine, WellWritten;
    var data := c.body + "\r\n" + more;
    SizeLineReads(c, data);
    SizeRun(s, SizeLine(c) + data);
    ChunkDataRun(Sized(s, |c.body|), data);
    assert data[..|c.body|] == c.body && data[|c.body| + 2..] == more;
    assert Bodies([c]) == c.body + "" == c.body;
  }

  lemma AfterBoth(s: State, cs: seq<Written>)
    requires cs != []
    ensures After(After(s, [cs[0]]), cs[1..]) == After(s, cs)
  {
    assert Bodies([cs[0]]) == cs[0].body + "" == cs[0].body;
    assert s.body + cs[0].body + Bodies(cs[1..]) == s.body + (cs[0].body + Bodies(cs[1..]));
  }

  /** The last chunk, without trailer fields, and the line end after it, which may be a line feed alone. */
  lemma LastRuns(s: State, last: Written, lineEnd: string, rest: string)
    requires s.phase.ChunkSizeDigit? && s.length == 0 && s.held == "" && IsLastChunk(last)
    requires lineEnd == "\r\n" || lineEnd == "\n"
    ensures Run(s, SizeLine(last) + (lineEnd + rest)) == Run(EndOfChunks(Sized(s, 0)), rest)
         || (lineEnd == "\r\n" &&
             Run(s, SizeLine(last) + (lineEnd + rest)) == Run(EndOfChunks(Sized(s, 0).(phase := TrailerAlmostDone)), rest))
  {
    hide Run, ReadSize, HexNumber, SizeLine, WellWritten, EndOfChunks;
    SizeLineReads(last, lineEnd + rest);
    SizeRun(s, SizeLine(last) + (lineEnd + rest));
    var t, text := Sized(s, 0), lineEnd + rest;
    RunStep(t, text);
    if lineEnd == "\n" {
      assert text[1..] == rest;
    } else {
      RunStep(t.(phase := TrailerAlmostDone), text[1..]);
      assert text[1..][1..] == rest;
    }
  }

  /**
   * Chunks whose sizes are written in either case, with leading zeros and extensions, and cut anywhere, arrive as their
   * concatenation. Every chunk, the last one included, is announced and completed once, the message once; the flags of
   * the message are reset but for leniency.
   */
  lemma WrittenChunksArrive(s: State, cs: seq<Written>, last: Written, lineEnd: string, bufs: seq<string>)
    requires ChunkedRequest(s) && IsLastChunk(last) && forall c :: c in cs ==> IsChunk(c)
    requires lineEnd == "\r\n" || lineEnd == "\n"
    requires Concat(bufs) == WriteChunks(cs) + (SizeLine(last) + lineEnd)
    ensures var e := RunAll(Begin(s), bufs);
            && e.body == s.body + Bodies(cs) && e.held == ""
            && e.chunkHeaders == s.chunkHeaders + |cs| + 1 && e.chunkCompletes == s.chunkCompletes + |cs| + 1
            && e.messageCompletes == s.messageCompletes + 1
            && e.phase.Done? && e.finish.Safe? && e.length == 0
            && e.flags == if Lenient in s.flags then {Lenient} else {}
  {
    hide Run, RunAll, WriteChunks, SizeLine, IsChunk, IsLastChunk, Bodies;
    var t := Begin(s);
    ChunksRun(t, cs, SizeLine(last) + lineEnd);
    assert lineEnd + "" == lineEnd;
    LastRuns(After(t, cs), last, lineEnd, "");
    CutsSameBody(t, t, bufs);
    var e := Run(t, Concat(bufs)).0;
    RunNothing(EndOfChunks(Sized(After(t, cs), 0)));
    RunNothing(EndOfChunks(Sized(After(t, cs), 0).(phase := TrailerAlmostDone)));
    FlushTerminal(RunAll(t, bufs), e);
  }

  /** A size beyond 64 bits, or a first character that is no digit in either case, is refused and nothing is delivered. */
  lemma SizeRefusedExactly(s: State, size: string, rest: string)
    requires s.phase.ChunkSizeDigit? && s.length == 0 && s.held == "" && HexOnly(size)
    requires HexNumber(size) > 0xffff_ffff_ffff_ffff || (size == "" && rest != "" && rest[0] !in LOWER && rest[0] !in UPPER)
    ensures var e := Run(s, size + rest).0; e.phase.InvalidChunk? && e.body == s.body && e.messageCompletes == s.messageCompletes
  {
    hide Step, Run, HexDigits, HexValue, HexNumber, HexOnly;
    HexNumberIs(size);
    EmptyValue();
    assert "" + size == size;
    if size == "" {
      assert size + rest == rest;
      if d: nat :| HexDigit(rest[0]) == Some(d) { HexDigitExact(rest[0], d); }
      SizeRefused(s, rest);
    } else {
      SizeDigitsRun(s, "", size, rest);
    }
  }

  // ----- Responses -----

  /** No end is given for the body of this message. */
  lemma NeedsEofExact(m: Message, flags: set<Flag>)
    ensures NeedsEof(m, flags) <==>
            && m.kind == Response
            && !(100 <= m.statusCode <= 199) && m.statusCode !in {204, 304}
            && flags !! {SkipBody, Chunked, ContentLength}
  {
  }

  /**
   * How the body of a response is delimited (section 3.3.3 of RFC 7230, but chunks and a length count whatever the status):
   * `Partial` also stands for a body that lasts until the connection is closed.
   */
  function FramedResponse(s: State, text: string): Decoded {
    if s.message.upgrade && (s.message.connect || (Chunked !in s.flags && s.length == 0)) then Complete("", text)
    else if SkipBody in s.flags then Complete("", text)
    else if Chunked in s.flags then Decode(text)
    else if ContentLength in s.flags then
      if |text| < s.length then Partial(text) else Complete(text[..s.length], text[s.length..])
    else if 100 <= s.message.statusCode <= 199 || s.message.statusCode in {204, 304} then Complete("", text)
    else Partial(text)
  }

  predicate ResponseHeadersDone(s: State) {
    s.message.kind.Response? && s.held == "" && s.finish.Unsafe?
  }

  predicate LastsUntilClose(phase: Phase) { phase.EofStart? || phase.EofBody? }

  /** What the end of the connection means for the message. */
  predicate FinishFits(s: State) {
    s.finish == if s.phase.Done? then Safe else if LastsUntilClose(s.phase) then SafeWithCb else Unsafe
  }

  lemma StepFinishFits(s: State, c: char)
    requires !Terminal(s) && FinishFits(s)
    ensures FinishFits(Step(s, c)) && (LastsUntilClose(Step(s, c).phase) <==> LastsUntilClose(s.phase))
  {
    hide MulAdd, HexDigit;
  }

  lemma {:induction false} RunFinishFits(s: State, text: string)
    requires FinishFits(s)
    ensures FinishFits(Run(s, text).0) && (LastsUntilClose(Run(s, text).0.phase) <==> LastsUntilClose(s.phase))
    decreases |text|
  {
    hide Step, LastsUntilClose, FinishFits;
    if text != "" && !Terminal(s) {
      StepFinishFits(s, text[0]);
      RunFinishFits(Step(s, text[0]), text[1..]);
    }
  }

  lemma EofRuns(s: State, text: string)
    requires s.phase.EofStart? && s.held == ""
    ensures RunsAs(s, text, Partial(text))
  {
    hide Step;
    if text == "" {
      assert s.body + "" == s.body;
    } else {
      StartSpan(s, text);
      RunEof(s.(phase := EofBody), text);
      assert "" + text == text;
    }
  }

  /**
   * Whatever framing the headers choose for a response, and however its bytes are cut, the callbacks receive exactly the
   * framed bytes; the end of the connection completes the message exactly when nothing else delimits its body.
   */
  lemma ResponseBodyFramed(s: State, bufs: seq<string>)
    requires ResponseHeadersDone(s)
    ensures var e, d := RunAll(Begin(s), bufs), FramedResponse(s, Concat(bufs));
            && e.body == s.body + d.body
            && e.messageCompletes == s.messageCompletes + (if d.Complete? then 1 else 0)
            && (d.Complete? ==> e.phase.Done? || e.phase.Paused?)
            && (d.Partial? ==> !Terminal(e))
            && (d.Malformed? ==> e.phase.InvalidChunk?)
            && (d.Trailer? ==> e.phase.TrailerField?)
    ensures FinishFits(RunAll(Begin(s), bufs))
    ensures RunAll(Begin(s), bufs).finish.SafeWithCb? <==>
              NeedsEof(s.message, s.flags) && !(s.message.upgrade && (s.message.connect || s.length == 0))
  {
    hide Run, Decode, RunAll, Step, RunsAs;
    var t, text := Begin(s), Concat(bufs);
    RunFinishFits(t, text);
    CutsSameBody(t, t, bufs);
    NothingHeld(t, bufs);
    var e := RunAll(t, bufs);
    SamePhase(e, Run(t, text).0);
    if Terminal(t) {
      RunTerminal(t, text);
      FlushTerminal(e, t);
      assert s.body + "" == s.body;
    } else {
      if t.phase.ChunkSizeDigit? {
        ChunksDecode(t, text);
      } else if t.phase.EofStart? {
        EofRuns(t, text);
      } else {
        IdentityRuns(t, text);
      }
      DeliveredFlush(t, e, text, FramedResponse(s, text));
    }
  }

  // ----- What a message leaves behind -----

  /** Within the message only the mark of the trailer part is added; after it only leniency is left. */
  predicate FlagsFit(flags: set<Flag>, s: State) {
    if s.phase.Done? then s.flags == (if Lenient in flags then {Lenient} else {})
    else
      && s.flags - {Trailing} == flags - {Trailing}
      && (s.phase.TrailerStart? || s.phase.TrailerAlmostDone? || s.phase.TrailerField? ==> Trailing in s.flags)
  }

  lemma StepFlagsFit(flags: set<Flag>, s: State, c: char)
    requires !Terminal(s) && FlagsFit(flags, s)
    ensures FlagsFit(flags, Step(s, c))
  {
    hide MulAdd, HexDigit;
    assert Lenient in s.flags <==> Lenient in s.flags - {Trailing};
    assert Lenient in flags <==> Lenient in flags - {Trailing};
  }

  /** For every message, framed in any way and read as far as one likes. */
  lemma {:induction false} MessageFlags(flags: set<Flag>, s: State, text: string)
    requires FlagsFit(flags, s)
    ensures FlagsFit(flags, Run(s, text).0)
    decreases |text|
  {
    hide Step, FlagsFit;
    if text != "" && !Terminal(s) {
      StepFlagsFit(flags, s, text[0]);
      MessageFlags(flags, Step(s, text[0]), text[1..]);
    }
  }

  lemma BeginFlags(s: State)
    ensures FlagsFit(s.flags, Begin(s))
  {
  }
}
