/** The body parser against the plain definitions: framing, chunk decoding, and the sender. */
module BodyProofs {
  import opened Options
  import opened Buffers
  import opened Digits
  import opened ChunkedCoding
  import opened ChunkSender
  import opened BodyMachine

  // ----- Cutting the stream -----

  predicate HeldInSpan(s: State) {
    s.held != "" ==> SpanOpen(s.phase)
  }

  /** Equal once the open span is handed out. */
  predicate SameBody(s: State, t: State) {
    HeldInSpan(s) && HeldInSpan(t) && Flush(s) == Flush(t)
  }

  lemma StepSameBody(s: State, t: State, c: char)
    requires SameBody(s, t) && !Terminal(s)
    ensures !Terminal(t) && SameBody(Step(s, c), Step(t, c))
  {
    assert s.body + (s.held + [c]) == s.body + s.held + [c];
    assert t.body + (t.held + [c]) == t.body + t.held + [c];
    assert forall x: string :: x + "" == x;
    hide MulAdd, HexDigit;
  }

  lemma {:induction false} RunSameBody(s: State, t: State, text: string)
    requires SameBody(s, t)
    ensures SameBody(Run(s, text).0, Run(t, text).0) && Run(s, text).1 == Run(t, text).1
    decreases |text|
  {
    hide Step;
    if text != "" && !Terminal(s) {
      StepSameBody(s, t, text[0]);
      RunSameBody(Step(s, text[0]), Step(t, text[0]), text[1..]);
    }
  }

  lemma {:induction false} RunSplits(s: State, a: string, b: string)
    ensures Run(s, a + b) == if Run(s, a).1 == "" then Run(Run(s, a).0, b) else (Run(s, a).0, Run(s, a).1 + b)
    decreases |a|
  {
    hide Step;
    if a == "" {
      assert a + b == b;
    } else if Terminal(s) {
    } else {
      assert (a + b)[1..] == a[1..] + b;
      RunSplits(Step(s, a[0]), a[1..], b);
    }
  }

  lemma FlushSameBody(s: State)
    requires HeldInSpan(s)
    ensures SameBody(Flush(s), s) && Flush(s).held == ""
  {
    assert forall x: string :: x + "" == x;
  }

  /** However the stream is cut, the callbacks have received the same body and the same events. */
  lemma {:induction false} CutsSameBody(s: State, t: State, bufs: seq<string>)
    requires SameBody(s, t)
    ensures SameBody(RunAll(s, bufs), Run(t, Concat(bufs)).0)
    decreases |bufs|
  {
    hide Step, Run, SameBody;
    if bufs == [] {
      RunNothing(t);
    } else {
      var first, others := bufs[0], Concat(bufs[1..]);
      RunSameBody(s, t, first);
      RunSplits(t, first, others);
      var s', t' := Run(s, first).0, Run(t, first).0;
      HeldOf(s', t');
      FlushSameBody(s');
      SameBodyTransitive(Flush(s'), s', t');
      if Run(t, first).1 != "" { RunTerminal(t', others); }
      CutsSameBody(Flush(s'), t', bufs[1..]);
    }
  }

  lemma RunNothing(s: State)
    ensures Run(s, "") == (s, "")
  {
  }

  lemma RunTerminal(s: State, text: string)
    requires Terminal(s)
    ensures Run(s, text) == (s, text)
  {
  }

  lemma HeldOf(s: State, t: State)
    requires SameBody(s, t)
    ensures HeldInSpan(s)
  {
  }

  lemma SameBodyTransitive(s: State, t: State, u: State)
    requires SameBody(s, t) && SameBody(t, u)
    ensures SameBody(s, u)
  {
  }

  // ----- Chunked coding: the automaton computes the plain decoding -----

  /** Nothing but the phase and the length differ. */
  predicate OnlyMoved(s: State, t: State) {
    t == s.(phase := t.phase, length := t.length)
  }

  lemma {:induction false} SizeDigitsRun(s: State, before: string, digits: string, rest: string)
    requires IsHex(before) && IsHex(digits) && s.length == HexValue(before) <= MAX64
    requires s.phase == if before == "" then ChunkSizeDigit else ChunkSize
    ensures IsHex(before + digits)
    ensures HexValue(before + digits) <= MAX64 && digits != "" ==>
              Run(s, digits + rest) == Run(s.(phase := ChunkSize, length := HexValue(before + digits)), rest)
    ensures HexValue(before + digits) > MAX64 ==>
              Run(s, digits + rest).0.phase.InvalidChunk? && OnlyMoved(s, Run(s, digits + rest).0)
    decreases |digits|
  {
    hide MulAdd, HexDigits, HexDigit;
    if digits == "" {
      assert before + digits == before;
    } else {
      var c := digits[0];
      assert c in digits;
      HexValueGrows(before, c);
      HexDigitBound(c);
      MulAddExact(s.length, 16, HexDigit(c).value, MAX64);
      var next := before + [c];
      assert next + digits[1..] == before + digits;
      assert (digits + rest)[0] == c && (digits + rest)[1..] == digits[1..] + rest;
      if HexValue(next) <= MAX64 {
        SizeDigitsRun(s.(phase := ChunkSize, length := HexValue(next)), next, digits[1..], rest);
        assert digits[1..] == "" ==> before + digits == next;
      } else {
        HexValueMonotone(next, digits[1..]);
      }
    }
  }

  lemma HexDigitBound(c: char)
    requires HexDigit(c).Some?
    ensures HexDigit(c).value < 16
  {
  }

  lemma {:induction false} HexValueMonotone(a: string, b: string)
    requires IsHex(a) && IsHex(b)
    ensures IsHex(a + b) && HexValue(a) <= HexValue(a + b)
    decreases |b|
  {
    if b == "" {
      assert a + b == a;
    } else {
      var front, c := b[..|b| - 1], b[|b| - 1];
      assert c in b;
      assert a + b == a + front + [c];
      HexValueMonotone(a, front);
      HexValueGrows(a + front, c);
    }
  }

  lemma {:induction false} ParametersRun(s: State, text: string)
    requires s.phase.ChunkParameters?
    ensures AfterCR(text).Some? ==> Run(s, text) == Run(s.(phase := ChunkSizeAlmostDone), AfterCR(text).value)
    ensures AfterCR(text).None? ==> Run(s, text) == (s, "")
    decreases |text|
  {
    if text != "" && text[0] != CR { ParametersRun(s, text[1..]); }
  }

  /** The state after a size line. */
  function Sized(s: State, n: nat): State {
    var t := s.(chunkHeaders := s.chunkHeaders + 1, length := n);
    if n == 0 then t.(flags := s.flags + {Trailing}, phase := TrailerStart) else t.(phase := ChunkBodyStart)
  }

  lemma LineEndRun(s: State, n: nat, text: string)
    requires s.phase.ChunkSizeAlmostDone? && s.length == n
    ensures AfterLine(n, text).Size? ==> Run(s, text) == Run(Sized(s, n), AfterLine(n, text).rest)
    ensures AfterLine(n, text).Unfinished? ==> Run(s, text) == (s, "")
  {
    if text != "" {
      RunStep(s, text);
      SizedStep(s, text[0]);
    }
  }

  lemma SizedStep(s: State, c: char)
    requires s.phase.ChunkSizeAlmostDone?
    ensures Step(s, c) == Sized(s, s.length)
  {
  }

  lemma SizeRun(s: State, text: string)
    requires s.phase.ChunkSizeDigit? && s.length == 0
    ensures var line := ReadSize(text);
            && (line.Size? ==> Run(s, text) == Run(Sized(s, line.n), line.rest))
            && (line.Unfinished? ==> Run(s, text).1 == "" && !Terminal(Run(s, text).0) && OnlyMoved(s, Run(s, text).0))
            && (line.BadSize? ==> Run(s, text).0.phase.InvalidChunk? && OnlyMoved(s, Run(s, text).0))
  {
    hide Step, HexDigits, HexDigit, AfterDigits, Run, HexValue;
    var k := HexPrefix(text);
    var digits, rest := text[..k], text[k..];
    assert text == digits + rest;
    EmptyValue();
    assert "" + digits == digits;
    SizeDigitsRun(s, "", digits, rest);
    if k == 0 {
      if text == "" { RunNothing(s); } else { SizeRefused(s, text); }
    } else if HexValue(digits) <= MAX64 {
      assert rest != "" ==> rest[0] == text[k];
      AfterSizeRun(s.(phase := ChunkSize, length := HexValue(digits)), HexValue(digits), rest);
    }
  }

  lemma EmptyValue()
    ensures HexValue("") == 0
  {
    assert HexDigits("") == [];
  }

  lemma SizeRefused(s: State, text: string)
    requires s.phase.ChunkSizeDigit? && text != "" && HexDigit(text[0]).None?
    ensures Run(s, text).0 == s.(phase := InvalidChunk)
  {
  }

  lemma AfterSizeRun(t: State, n: nat, rest: string)
    requires t.phase.ChunkSize? && t.length == n && (rest != "" ==> HexDigit(rest[0]).None?)
    ensures var line := AfterDigits(n, rest);
            && (line.Size? ==> Run(t, rest) == Run(Sized(t, n), line.rest))
            && (line.Unfinished? ==> Run(t, rest).1 == "" && !Terminal(Run(t, rest).0) && OnlyMoved(t, Run(t, rest).0))
            && (line.BadSize? ==> Run(t, rest).0.phase.InvalidChunk? && OnlyMoved(t, Run(t, rest).0))
  {
    hide MulAdd, AfterLine, AfterCR, HexValue, Sized, Step;
    if rest == "" {
      RunNothing(t);
    } else {
      RunStep(t, rest);
      SizeEndStep(t, rest[0]);
      hide Run;
      if rest[0] == CR {
        LineEndRun(t.(phase := ChunkSizeAlmostDone), n, rest[1..]);
      } else if rest[0] == ' ' || rest[0] == ';' {
        ParametersRun(t.(phase := ChunkParameters), rest[1..]);
        var more := AfterCR(rest[1..]);
        if more.Some? { LineEndRun(t.(phase := ChunkSizeAlmostDone), n, more.value); }
      } else {
        RunTerminal(t.(phase := InvalidChunk), rest[1..]);
      }
      SizedAgain(t, n);
    }
  }

  lemma SizedAgain(t: State, n: nat)
    ensures Sized(t.(phase := ChunkSizeAlmostDone), n) == Sized(t, n)
  {
  }

  lemma SizeEndStep(t: State, c: char)
    requires t.phase.ChunkSize? && HexDigit(c).None?
    ensures Step(t, c) == t.(phase := if c == CR then ChunkSizeAlmostDone
                                      else if c == ' ' || c == ';' then ChunkParameters else InvalidChunk)
  {
  }

  /** How a run relates to the decoding of the text it read. */
  ghost predicate RunsAs(s: State, text: string, d: Decoded) {
    var (e, rest) := Run(s, text);
    match d
    case Complete(body, left) =>
      && rest == left && e.held == "" && e.body == s.body + body && e.length == 0
      && e.messageCompletes == s.messageCompletes + 1
      && (if s.message.upgrade then e.phase.Paused? && e.finish == s.finish else e.phase.Done? && e.finish.Safe?)
    case Partial(body) =>
      && rest == "" && !Terminal(e) && e.body + e.held == s.body + body
      && e.messageCompletes == s.messageCompletes && e.finish == s.finish
    case Malformed(body) =>
      e.phase.InvalidChunk? && e.body == s.body + body && e.held == "" && e.messageCompletes == s.messageCompletes
    case Trailer(body) =>
      e.phase.TrailerField? && e.body == s.body + body && e.held == "" && e.messageCompletes == s.messageCompletes
  }

  lemma EndRun(s: State, text: string)
    requires s.phase.TrailerStart? && s.held == "" && s.length == 0
    ensures RunsAs(s, text, ReadEnd(text))
  {
    assert s.body + "" == s.body;
    if text != "" {
      RunStep(s, text);
      var t := Step(s, text[0]);
      if text[0] == CR && |text| > 1 {
        RunStep(t, text[1..]);
        assert text[1..][1..] == text[2..];
        RunTerminal(EndOfChunks(t), text[2..]);
      } else if text[0] != CR {
        RunTerminal(t, text[1..]);
      }
    }
  }

  /** The data of one chunk and the two bytes after it. */
  lemma ChunkDataRun(s: State, text: string)
    requires s.phase.ChunkBodyStart? && s.held == "" && s.length > 0
    ensures |text| < s.length ==>
              RunsAs(s, text, Partial(text))
    ensures s.length <= |text| < s.length + 2 ==>
              RunsAs(s, text, Partial(text[..s.length]))
    ensures |text| >= s.length + 2 ==>
              Run(s, text) == Run(s.(phase := ChunkSizeDigit, length := 0, body := s.body + text[..s.length],
                                     chunkCompletes := s.chunkCompletes + 1), text[s.length + 2..])
  {
    hide Step, Run, Decode;
    if text == "" {
      NoDataRun(s);
    } else {
      StartSpan(s, text);
      RunCounted(s.(phase := ChunkBody), text, ChunkBody);
      assert "" + text == text;
      if |text| >= s.length {
        assert "" + text[..s.length] == text[..s.length];
        var after := s.(phase := ChunkDataAlmostDone, length := 0, body := s.body + text[..s.length]);
        AfterDataRun(after, text[s.length..]);
        if |text| >= s.length + 2 { assert text[s.length..][2..] == text[s.length + 2..]; }
      }
    }
  }

  lemma NoDataRun(s: State)
    requires s.phase.ChunkBodyStart? && s.held == ""
    ensures RunsAs(s, "", Partial(""))
  {
    assert s.body + "" == s.body;
  }

  lemma AfterDataRun(s: State, text: string)
    requires s.phase.ChunkDataAlmostDone? && s.held == "" && s.length == 0
    ensures |text| < 2 ==> Run(s, text).1 == "" && !Terminal(Run(s, text).0) && OnlyMoved(s, Run(s, text).0)
    ensures |text| >= 2 ==>
              Run(s, text) == Run(s.(phase := ChunkSizeDigit, chunkCompletes := s.chunkCompletes + 1), text[2..])
  {
    if |text| >= 2 { assert text[1..][1..] == text[2..]; }
  }

  /** For every text the automaton's callbacks receive exactly what the plain decoding says. */
  lemma {:induction false} ChunksDecode(s: State, text: string)
    requires s.phase.ChunkSizeDigit? && s.length == 0 && s.held == ""
    ensures RunsAs(s, text, Decode(text))
    decreases |text|
  {
    hide Step, Run, ReadSize, ReadEnd;
    SizeRun(s, text);
    assert s.body + "" == s.body;
    var line := ReadSize(text);
    if line.Size? {
      var n, rest := line.n, line.rest;
      var t := Sized(s, n);
      if n == 0 {
        EndRun(t, rest);
        RunsAsThrough(s, text, t, rest, ReadEnd(rest));
      } else {
        ChunkDataRun(t, rest);
        if |rest| < n {
          RunsAsThrough(s, text, t, rest, Partial(rest));
        } else if |rest| < n + 2 {
          RunsAsThrough(s, text, t, rest, Partial(rest[..n]));
        } else {
          var u := t.(phase := ChunkSizeDigit, length := 0, body := s.body + rest[..n], chunkCompletes := t.chunkCompletes + 1);
          ChunksDecode(u, rest[n + 2..]);
          RunsAsPrepend(s, text, u, rest[n + 2..], rest[..n], Decode(rest[n + 2..]));
        }
      }
    }
  }

  lemma RunsAsThrough(s: State, text: string, t: State, rest: string, d: Decoded)
    requires Run(s, text) == Run(t, rest) && RunsAs(t, rest, d)
    requires t.body == s.body && t.message == s.message && t.messageCompletes == s.messageCompletes && t.finish == s.finish
    ensures RunsAs(s, text, d)
  {
    hide Run;
  }

  lemma RunsAsPrepend(s: State, text: string, t: State, rest: string, data: string, d: Decoded)
    requires Run(s, text) == Run(t, rest) && RunsAs(t, rest, d) && t.body == s.body + data
    requires t.message == s.message && t.messageCompletes == s.messageCompletes && t.finish == s.finish
    ensures RunsAs(s, text, Prepend(data, d))
  {
    hide Run;
    assert s.body + data + d.body == s.body + (data + d.body);
  }

  // ----- The sender's chunks decode to the bodies -----

  /** The bodies before the first empty one. */
  function UntilEmpty(bodies: seq<string>): seq<string> {
    if bodies == [] || bodies[0] == "" then [] else [bodies[0]] + UntilEmpty(bodies[1..])
  }

  function AfterEmpty(bodies: seq<string>): seq<string> {
    if bodies == [] then [] else if bodies[0] == "" then bodies[1..] else AfterEmpty(bodies[1..])
  }

  function Wire(bodies: seq<string>): string {
    Drained(PushedAll(bodies))
  }

  lemma WireOf(bodies: seq<string>)
    ensures Wire(bodies) == if bodies == [] then LastChunk else Chunk(bodies[0]) + Wire(bodies[1..])
  {
    hide Chunk;
    if bodies == [] {
      var q := Pushed("", true);
      assert q[1..] == [("", true)];
      assert Drained(q) == LastChunk + Drained(q[1..]);
      assert LastChunk + "" == LastChunk;
    } else {
      var q := PushedAll(bodies);
      assert q == [(Chunk(bodies[0]), false)] + PushedAll(bodies[1..]);
      assert q[1..] == PushedAll(bodies[1..]);
    }
  }

  lemma ReadChunkSize(n: nat, rest: string)
    requires n <= MAX64
    ensures ReadSize(HexText(n) + CRLF + rest) == Size(n, rest)
  {
    hide HexText, HexDigits;
    HexTextValue(n);
    var digits := HexText(n);
    var s := digits + CRLF + rest;
    PrefixIs(digits, CRLF + rest);
    assert s == digits + (CRLF + rest);
    assert s[..|digits|] == digits;
    assert s[|digits| + 1..] == [LF] + rest;
    assert ([LF] + rest)[1..] == rest;
  }

  lemma HexHead(digits: string)
    requires IsHex(digits) && digits != ""
    ensures HexDigit(digits[0]).Some? && IsHex(digits[1..])
  {
    hide HexDigit;
    assert digits[0] in digits;
  }

  lemma PrefixIs(digits: string, rest: string)
    requires IsHex(digits) && (rest != "" ==> HexDigit(rest[0]).None?)
    ensures HexPrefix(digits + rest) == |digits|
    decreases |digits|
  {
    hide HexDigit, IsHex;
    if digits == "" {
      assert digits + rest == rest;
    } else {
      HexHead(digits);
      assert (digits + rest)[1..] == digits[1..] + rest;
      PrefixIs(digits[1..], rest);
    }
  }

  lemma LastChunkDecodes(rest: string)
    ensures Decode(LastChunk + rest) == Complete("", rest)
  {
    assert HexText(0) == "0";
    ReadChunkSize(0, CRLF + rest);
    assert LastChunk + rest == HexText(0) + CRLF + (CRLF + rest);
    assert (CRLF + rest)[2..] == rest;
  }

  lemma ChunkDecodes(body: string, rest: string)
    requires 0 < |body| <= MAX64
    ensures Decode(Chunk(body) + rest) == Prepend(body, Decode(rest))
  {
    hide HexText, ReadSize;
    var after := body + CRLF + rest;
    ReadChunkSize(|body|, after);
    assert Chunk(body) + rest == HexText(|body|) + CRLF + after;
    assert after[..|body|] == body && after[|body| + 2..] == rest;
  }

  /** An empty body that is not the last one is sent as the very bytes that end the message. */
  lemma EmptyChunkIsLast()
    ensures Chunk("") == LastChunk
  {
    assert HexText(0) == "0";
  }

  /**
   * What the receiver decodes: the bodies before the first empty one. Nothing of the stream is left
   * exactly when no empty body was pushed.
   */
  lemma {:induction false} WireDecodes(bodies: seq<string>, rest: string)
    requires forall b :: b in bodies ==> |b| <= 0xffff_ffff_ffff_ffff
    ensures Decode(Wire(bodies) + rest) ==
            Complete(Concat(UntilEmpty(bodies)), if "" in bodies then Wire(AfterEmpty(bodies)) + rest else rest)
    decreases |bodies|
  {
    hide Chunk, Decode, Wire;
    WireOf(bodies);
    if bodies == [] {
      LastChunkDecodes(rest);
    } else {
      var more := Wire(bodies[1..]) + rest;
      assert Wire(bodies) + rest == Chunk(bodies[0]) + more;
      if bodies[0] == "" {
        EmptyChunkIsLast();
        LastChunkDecodes(more);
      } else {
        ChunkDecodes(bodies[0], more);
        WireDecodes(bodies[1..], rest);
      }
    }
  }

  lemma UntilEmptyAll(bodies: seq<string>)
    requires "" !in bodies
    ensures UntilEmpty(bodies) == bodies
  {
  }

  /** A request with chunked body, its headers just complete. */
  predicate ChunkedRequest(s: State) {
    && s.message.kind.Request? && !s.message.upgrade && Chunked in s.flags && SkipBody !in s.flags
    && s.held == "" && s.finish.Unsafe?
  }

  /**
   * Bodies pushed to the response queue and drained, cut anywhere on the way, arrive as their
   * concatenation, and the message is completed once, when the last byte is in.
   */
  lemma ChunkedRoundTrip(s: State, bodies: seq<string>, bufs: seq<string>)
    requires ChunkedRequest(s) && "" !in bodies && forall b :: b in bodies ==> |b| <= 0xffff_ffff_ffff_ffff
    requires Concat(bufs) == Wire(bodies)
    ensures var e := RunAll(Begin(s), bufs);
            && e.body == s.body + Concat(bodies) && e.held == ""
            && e.messageCompletes == s.messageCompletes + 1
            && e.phase.Done? && e.finish.Safe? && e.length == 0
  {
    hide Wire, Decode, Run;
    var t := Begin(s);
    WireDecodes(bodies, "");
    UntilEmptyAll(bodies);
    assert Wire(bodies) + "" == Wire(bodies);
    ChunksDecode(t, Wire(bodies));
    CutsSameBody(t, t, bufs);
    FlushTerminal(RunAll(t, bufs), Run(t, Wire(bodies)).0);
  }

  lemma FlushTerminal(s: State, t: State)
    requires SameBody(s, t) && Terminal(t) && t.held == ""
    ensures s == t
  {
    assert s.body + "" == s.body && t.body + "" == t.body;
  }

  // ----- Every request body, whatever its framing -----

  /**
   * How the body of a request is delimited (section 3.3.3 of RFC 7230): not at all when another
   * protocol follows or the body is skipped, else by chunks, else by the length, else it is empty.
   */
  function Framed(s: State, text: string): Decoded {
    var hasBody := Chunked in s.flags || s.length > 0;
    if s.message.upgrade && (s.message.connect || !hasBody) then Complete("", text)
    else if SkipBody in s.flags then Complete("", text)
    else if Chunked in s.flags then Decode(text)
    else if ContentLength !in s.flags then Complete("", text)
    else if |text| < s.length then Partial(text)
    else Complete(text[..s.length], text[s.length..])
  }

  predicate RequestHeadersDone(s: State) {
    s.message.kind.Request? && s.held == "" && s.finish.Unsafe?
  }

  /** The request never waits for the end of the connection, and is unsafe until it is done. */
  predicate FinishMatches(s: State) {
    && !s.phase.EofStart? && !s.phase.EofBody?
    && s.finish == if s.phase.Done? then Safe else Unsafe
  }

  lemma StepFinish(s: State, c: char)
    requires !Terminal(s) && FinishMatches(s)
    ensures FinishMatches(Step(s, c))
  {
    hide MulAdd, HexDigit;
  }

  lemma {:induction false} RunFinish(s: State, text: string)
    requires FinishMatches(s)
    ensures FinishMatches(Run(s, text).0)
    decreases |text|
  {
    hide Step;
    if text != "" && !Terminal(s) {
      StepFinish(s, text[0]);
      RunFinish(Step(s, text[0]), text[1..]);
    }
  }

  lemma IdentityRuns(s: State, text: string)
    requires s.phase.IdentityStart? && s.held == "" && s.length > 0
    ensures RunsAs(s, text, if |text| < s.length then Partial(text) else Complete(text[..s.length], text[s.length..]))
  {
    hide Step;
    if text == "" {
      assert s.body + "" == s.body;
    } else {
      StartSpan(s, text);
      RunCounted(s.(phase := Identity), text, Identity);
      assert "" + text == text;
      if |text| >= s.length {
        assert "" + text[..s.length] == text[..s.length];
        RunTerminal(CompleteMessage(s.(phase := Identity, length := 0, body := s.body + text[..s.length])), text[s.length..]);
      }
    }
  }

  /** The headers announce a body and it is read, not skipped. */
  predicate HasFramedBody(s: State) {
    && SkipBody !in s.flags && !(s.message.upgrade && s.message.connect)
    && (Chunked in s.flags || ContentLength in s.flags)
  }

  /** What the callbacks have got, once the open span is handed out. */
  predicate Delivered(s: State, e: State, d: Decoded) {
    && e.body == s.body + d.body
    && e.messageCompletes == s.messageCompletes + (if d.Complete? then 1 else 0)
    && (d.Complete? ==> e.phase.Done? || e.phase.Paused?)
    && (d.Partial? ==> !Terminal(e))
    && (d.Malformed? ==> e.phase.InvalidChunk?)
    && (d.Trailer? ==> e.phase.TrailerField?)
    && (d.Complete? && HasFramedBody(s) ==> e.length == 0)
  }

  lemma DeliveredFlush(s: State, e: State, text: string, d: Decoded)
    requires RunsAs(s, text, d) && SameBody(e, Run(s, text).0) && e.held == ""
    ensures Delivered(s, e, d)
  {
    hide Run;
    assert e.body + "" == e.body;
  }

  lemma BodilessDelivered(s: State, bufs: seq<string>)
    requires RequestHeadersDone(s) && Terminal(Begin(s))
    ensures Delivered(s, RunAll(Begin(s), bufs), Framed(s, Concat(bufs)))
  {
    hide Run, Decode;
    var t := Begin(s);
    CutsSameBody(t, t, bufs);
    RunTerminal(t, Concat(bufs));
    FlushTerminal(RunAll(t, bufs), t);
    assert s.body + "" == s.body;
  }

  /**
   * Whatever framing the headers choose for a request, and however its bytes are cut, the body
   * callbacks receive exactly the framed bytes and the message is completed exactly when the
   * framing says so; `finish` is unsafe exactly until then and never `SAFE_WITH_CB`.
   */
  lemma RequestBodyFramed(s: State, bufs: seq<string>)
    requires RequestHeadersDone(s)
    ensures Delivered(s, RunAll(Begin(s), bufs), Framed(s, Concat(bufs)))
    ensures FinishMatches(RunAll(Begin(s), bufs))
  {
    hide Run, Decode, RunAll, Step, RunsAs;
    var t, text := Begin(s), Concat(bufs);
    RunFinish(t, text);
    CutsSameBody(t, t, bufs);
    NothingHeld(t, bufs);
    var e := RunAll(t, bufs);
    SamePhase(e, Run(t, text).0);
    if Terminal(t) {
      BodilessDelivered(s, bufs);
    } else {
      if t.phase.ChunkSizeDigit? { ChunksDecode(t, text); } else { IdentityRuns(t, text); }
      DeliveredFlush(t, e, text, Framed(s, text));
    }
  }

  lemma SamePhase(s: State, t: State)
    requires SameBody(s, t)
    ensures s.phase == t.phase && s.finish == t.finish
  {
  }

  lemma {:induction false} NothingHeld(s: State, bufs: seq<string>)
    requires s.held == ""
    ensures RunAll(s, bufs).held == ""
    decreases |bufs|
  {
    hide Run;
    if bufs != [] { NothingHeld(Flush(Run(s, bufs[0]).0), bufs[1..]); }
  }
}
