/** The body states of the HTTP parser: from the end of the headers to the end of the message. */
module BodyMachine {
  import opened Options
  import opened Digits
  import opened ChunkedCoding

  datatype Flag =
    | ConnectionKeepAlive | ConnectionClose | ConnectionUpgrade | Chunked
    | Upgrade | ContentLength | SkipBody | Trailing | Lenient

  datatype Kind = Request | Response

  datatype Finish = Safe | SafeWithCb | Unsafe

  /** What the headers have told. */
  datatype Message = Message(kind: Kind, connect: bool, statusCode: nat, upgrade: bool)

  datatype Phase =
    | ChunkSizeDigit | ChunkSize | ChunkParameters | ChunkSizeAlmostDone
    | ChunkBodyStart | ChunkBody | ChunkDataAlmostDone | ChunkDataSkip
    | TrailerStart | TrailerAlmostDone
    | IdentityStart | Identity | EofStart | EofBody
    | Done            // ready for the next message
    | Paused          // the rest of the connection speaks another protocol
    | InvalidChunk    // error HPE_INVALID_CHUNK_SIZE
    | TrailerField    // trailer fields are not part of this model

  /**
   * `held` is the open body span within the current buffer; `body` is everything the body callback
   * got, the counters tell how often the other callbacks ran.
   */
  datatype State = State(
    message: Message, phase: Phase, length: nat, flags: set<Flag>, finish: Finish, held: string,
    body: string, chunkHeaders: nat, chunkCompletes: nat, messageCompletes: nat)

  predicate Terminal(s: State) {
    s.phase.Done? || s.phase.Paused? || s.phase.InvalidChunk? || s.phase.TrailerField?
  }

  predicate SpanOpen(phase: Phase) {
    phase.ChunkBody? || phase.Identity? || phase.EofBody?
  }

  // ----- http.c -----

  function NeedsEof(m: Message, flags: set<Flag>): bool {
    if m.kind.Request? then false
    else if m.statusCode / 100 == 1 || m.statusCode == 204 || m.statusCode == 304 || SkipBody in flags then false
    else !(Chunked in flags || ContentLength in flags)
  }

  /** `llhttp__after_headers_complete`: 0 no body, 1 other protocol, 2 chunked, 3 length, 4 until EOF. */
  function AfterHeadersComplete(m: Message, flags: set<Flag>, length: nat): (mode: nat)
    ensures mode <= 4
  {
    var hasBody := Chunked in flags || length > 0;
    if m.upgrade && (m.connect || SkipBody in flags || !hasBody) then 1
    else if SkipBody in flags then 0
    else if Chunked in flags then 2
    else if ContentLength !in flags then if NeedsEof(m, flags) then 4 else 0
    else if length == 0 then 0
    else 3
  }

  /** `llhttp__after_message_complete` and the way back to the start state. */
  function AfterMessageComplete(s: State): State {
    s.(finish := Safe, flags := s.flags * {Lenient}, phase := Done)
  }

  /** `on_message_complete` at the end of a body. */
  function CompleteMessage(s: State): State {
    var t := s.(messageCompletes := s.messageCompletes + 1);
    if s.message.upgrade then t.(phase := Paused) else AfterMessageComplete(t)
  }

  /** The step from the headers to the body. */
  function Begin(s: State): State {
    match AfterHeadersComplete(s.message, s.flags, s.length)
    case 1 => s.(messageCompletes := s.messageCompletes + 1, phase := Paused)
    case 2 => s.(length := 0, phase := ChunkSizeDigit)
    case 3 => s.(phase := IdentityStart)
    case 4 => s.(finish := SafeWithCb, phase := EofStart)
    case _ => AfterMessageComplete(s.(messageCompletes := s.messageCompletes + 1))
  }

  // ----- llhttp.c -----

  function SizeDigit(s: State, digit: nat): State {
    match MulAdd(s.length, 16, digit, MAX64)
    case None => s.(phase := InvalidChunk)
    case Some(length) => s.(phase := ChunkSize, length := length)
  }

  /** One byte of a body whose end is known; the last one closes the span. */
  function CountedByte(s: State, c: char, inside: Phase): State {
    var t := s.(held := s.held + [c], length := if s.length > 0 then s.length - 1 else 0);
    if s.length > 1 then t.(phase := inside)
    else
      var closed := t.(body := t.body + t.held, held := "");
      if inside.ChunkBody? then closed.(phase := ChunkDataAlmostDone) else CompleteMessage(closed)
  }

  function EndOfChunks(s: State): State {
    CompleteMessage(s.(chunkCompletes := s.chunkCompletes + 1))
  }

  function Step(s: State, c: char): State
    requires !Terminal(s)
  {
    match s.phase
    case ChunkSizeDigit =>
      if HexDigit(c).Some? then SizeDigit(s, HexDigit(c).value) else s.(phase := InvalidChunk)
    case ChunkSize =>
      if HexDigit(c).Some? then SizeDigit(s, HexDigit(c).value)
      else if c == CR then s.(phase := ChunkSizeAlmostDone)
      else if c == ' ' || c == ';' then s.(phase := ChunkParameters)
      else s.(phase := InvalidChunk)
    case ChunkParameters => if c == CR then s.(phase := ChunkSizeAlmostDone) else s
    case ChunkSizeAlmostDone =>
      var t := s.(chunkHeaders := s.chunkHeaders + 1);
      if s.length == 0 then t.(flags := s.flags + {Trailing}, phase := TrailerStart)
      else t.(phase := ChunkBodyStart)
    case ChunkBodyStart => CountedByte(s.(held := ""), c, ChunkBody)
    case ChunkBody => CountedByte(s, c, ChunkBody)
    case ChunkDataAlmostDone => s.(phase := ChunkDataSkip)
    case ChunkDataSkip => s.(chunkCompletes := s.chunkCompletes + 1, length := 0, phase := ChunkSizeDigit)
    case TrailerStart =>
      if c == LF then EndOfChunks(s)
      else if c == CR then s.(phase := TrailerAlmostDone)
      else s.(phase := TrailerField)
    case TrailerAlmostDone => EndOfChunks(s)
    case IdentityStart => CountedByte(s.(held := ""), c, Identity)
    case Identity => CountedByte(s, c, Identity)
    case EofStart => s.(held := [c], phase := EofBody)
    case EofBody => s.(held := s.held + [c])
    case _ => assert false; s
  }

  /** Runs until the text or the message ends; also gives the text that is left. */
  function Run(s: State, text: string): (r: (State, string))
    ensures |r.1| <= |text|
    ensures r.1 == "" || Terminal(r.0)
    decreases |text|
  {
    if text == "" || Terminal(s) then (s, text) else Run(Step(s, text[0]), text[1..])
  }

  /** The end of a buffer hands the open span to the callback. */
  function Flush(s: State): State {
    s.(body := s.body + s.held, held := "")
  }

  /** A message that arrives in several buffers. */
  function RunAll(s: State, bufs: seq<string>): State
    decreases |bufs|
  {
    if bufs == [] then s else RunAll(Flush(Run(s, bufs[0]).0), bufs[1..])
  }

  // ----- Whole stretches of a counted body -----

  lemma {:induction false} RunCounted(s: State, text: string, inside: Phase)
    requires s.phase == inside && (inside.ChunkBody? || inside.Identity?) && 0 < s.length
    ensures |text| < s.length ==> Run(s, text) == (s.(held := s.held + text, length := s.length - |text|), "")
    ensures |text| >= s.length ==>
              var closed := s.(held := "", length := 0, body := s.body + (s.held + text[..s.length]));
              var after := if inside.ChunkBody? then closed.(phase := ChunkDataAlmostDone) else CompleteMessage(closed);
              Run(s, text) == Run(after, text[s.length..])
    decreases |text|
  {
    if text == "" {
      assert s.held + "" == s.held;
    } else {
      var t := Step(s, text[0]);
      if s.length == 1 {
        assert text[..1] == [text[0]];
      } else {
        RunCounted(t, text[1..], inside);
        assert s.held + [text[0]] + text[1..] == s.held + text;
        if |text| >= s.length {
          assert s.held + [text[0]] + text[1..][..s.length - 1] == s.held + text[..s.length];
          assert text[1..][s.length - 1..] == text[s.length..];
        }
      }
    }
  }

  lemma {:induction false} RunEof(s: State, text: string)
    requires s.phase.EofBody?
    ensures Run(s, text) == (s.(held := s.held + text), "")
    decreases |text|
  {
    if text == "" {
      assert s.held + "" == s.held;
    } else {
      RunEof(Step(s, text[0]), text[1..]);
      assert s.held + [text[0]] + text[1..] == s.held + text;
    }
  }

  /** The span starts with the first byte of the body. */
  lemma StartSpan(s: State, text: string)
    requires text != ""
    ensures s.phase.ChunkBodyStart? ==> Run(s, text) == Run(s.(phase := ChunkBody, held := ""), text)
    ensures s.phase.IdentityStart? ==> Run(s, text) == Run(s.(phase := Identity, held := ""), text)
    ensures s.phase.EofStart? ==> Run(s, text) == Run(s.(phase := EofBody, held := ""), text)
  {
    hide Step;
    FirstSpanByte(s, text[0]);
  }

  lemma FirstSpanByte(s: State, c: char)
    ensures s.phase.ChunkBodyStart? ==> Step(s, c) == Step(s.(phase := ChunkBody, held := ""), c)
    ensures s.phase.IdentityStart? ==> Step(s, c) == Step(s.(phase := Identity, held := ""), c)
    ensures s.phase.EofStart? ==> Step(s, c) == Step(s.(phase := EofBody, held := ""), c)
  {
    assert "" + [c] == [c];
  }

  lemma RunStep(s: State, text: string)
    requires text != "" && !Terminal(s)
    ensures Run(s, text) == Run(Step(s, text[0]), text[1..])
  {
    hide Step;
  }
}

/** The parser object's body states with the callbacks of the connection. */
module BodyParser {
  import opened Options
  import opened Digits
  import opened ChunkedCoding
  import opened BodyMachine

  class Callbacks {
    var body: string
    var chunkHeaders: nat
    var chunkCompletes: nat
    var messageCompletes: nat

    constructor ()
      ensures body == "" && chunkHeaders == 0 && chunkCompletes == 0 && messageCompletes == 0
    {
      body, chunkHeaders, chunkCompletes, messageCompletes := "", 0, 0, 0;
    }

    method OnBody(at: string)
      modifies this`body
      ensures body == old(body) + at
    {
      body := body + at;
    }
  }

  class Parser {
    const callbacks: Callbacks
    const message: Message
    var current: Phase
    var contentLength: nat
    var flags: set<Flag>
    var finish: Finish
    var spanPos: Option<nat>

    ghost predicate Valid()
      reads this
    {
      && (SpanOpen(current) <==> spanPos.Some?)
      && (current.ChunkBodyStart? || current.ChunkBody? || current.IdentityStart? || current.Identity? ==> contentLength > 0)
    }

    /** The state with `held` as the open span. */
    ghost function View(held: string): State
      reads this, callbacks
    {
      State(message, current, contentLength, flags, finish, held,
            callbacks.body, callbacks.chunkHeaders, callbacks.chunkCompletes, callbacks.messageCompletes)
    }

    /** The parser when the headers of a message are complete and `contentLength` is known. */
    constructor (message: Message, flags: set<Flag>, contentLength: nat, callbacks: Callbacks)
      ensures this.message == message && this.callbacks == callbacks
      ensures Valid()
      ensures View("") == Begin(State(message, Done, contentLength, flags, Unsafe, "", callbacks.body,
                                      callbacks.chunkHeaders, callbacks.chunkCompletes, old(callbacks.messageCompletes)))
      modifies callbacks
      ensures callbacks.body == old(callbacks.body)
              && callbacks.chunkHeaders == old(callbacks.chunkHeaders)
              && callbacks.chunkCompletes == old(callbacks.chunkCompletes)
    {
      this.message, this.callbacks := message, callbacks;
      this.contentLength, this.flags, this.finish, this.spanPos := contentLength, flags, Unsafe, None;
      this.current := Done;
      new;
      match AfterHeadersComplete(message, flags, contentLength) {
        case 1 =>
          callbacks.messageCompletes := callbacks.messageCompletes + 1;
          current := Paused;
        case 2 =>
          this.contentLength := 0;
          current := ChunkSizeDigit;
        case 3 => current := IdentityStart;
        case 4 =>
          finish := SafeWithCb;
          current := EofStart;
        case _ =>
          callbacks.messageCompletes := callbacks.messageCompletes + 1;
          MessageDone();
      }
    }

    method MessageDone()
      modifies this`finish, this`flags, this`current
      ensures finish == Safe && flags == old(flags) * {Lenient} && current == Done
    {
      finish := Safe;
      flags := flags * {Lenient};
      current := Done;
    }

    method OnMessageComplete()
      modifies this`finish, this`flags, this`current, callbacks`messageCompletes
      ensures View("") == CompleteMessage(old(View("")))
      ensures current.Done? || current.Paused?
    {
      callbacks.messageCompletes := callbacks.messageCompletes + 1;
      if message.upgrade {
        current := Paused;
      } else {
        MessageDone();
      }
    }

    ghost function Span(buf: string, p: nat): string
      reads this
      requires p <= |buf|
    {
      if spanPos.Some? && spanPos.value <= p then buf[spanPos.value..p] else ""
    }

    /**
     * `llhttp__internal_execute`: consumes `buf` until it or the message ends, then hands out the
     * open span. Returns the number of bytes consumed.
     */
    method Execute(buf: string) returns (n: nat)
      requires Valid()
      modifies this, callbacks
      ensures Valid() && n <= |buf|
      ensures var end := Run(old(View("")), buf);
              View("") == Flush(end.0) && buf[n..] == end.1
    {
      // restart the span
      if spanPos.Some? { spanPos := Some(0); }
      ghost var goal := Run(old(View("")), buf);
      n := 0;
      assert buf[0..] == buf && buf[0..0] == "";
      while n < |buf| && !(current.Done? || current.Paused? || current.InvalidChunk? || current.TrailerField?)
        invariant n <= |buf| && Valid() && (spanPos.Some? ==> spanPos.value <= n)
        invariant goal == Run(View(Span(buf, n)), buf[n..])
        decreases |buf| - n
      {
        hide Step, Run;
        if current.ChunkBodyStart? || current.ChunkBody? || current.IdentityStart? || current.Identity?
           || current.EofStart? || current.EofBody? {
          n := BodyBytes(buf, n);
        } else {
          RunStep(View(""), buf[n..]);
          StateByte(buf[n]);
          assert buf[n..][1..] == buf[n + 1..];
          n := n + 1;
        }
      }
      // execute spans
      if spanPos.Some? {
        assert buf[spanPos.value..n] == buf[spanPos.value..];
        callbacks.OnBody(buf[spanPos.value..]);
      } else {
        assert callbacks.body + "" == callbacks.body;
      }
    }

    /** The body states take as much of the buffer as they need. */
    method BodyBytes(buf: string, p: nat) returns (n: nat)
      requires Valid() && p < |buf| && (spanPos.Some? ==> spanPos.value <= p)
      requires current.ChunkBodyStart? || current.ChunkBody? || current.IdentityStart? || current.Identity?
               || current.EofStart? || current.EofBody?
      modifies this, callbacks
      ensures Valid() && p < n <= |buf| && (spanPos.Some? ==> spanPos.value <= n)
      ensures Run(old(View(Span(buf, p))), buf[p..]) == Run(View(Span(buf, n)), buf[n..])
    {
      StartSpan(View(Span(buf, p)), buf[p..]);
      assert buf[p..p] == "";
      if current.EofStart? || current.EofBody? {
        if current.EofStart? { current, spanPos := EofBody, Some(p); }
        hide Step, Run;
        RunEof(View(Span(buf, p)), buf[p..]);
        n := |buf|;
        assert buf[spanPos.value..p] + buf[p..] == buf[spanPos.value..n];
        assert buf[n..] == "";
        RunNothing(View(Span(buf, n)));
      } else {
        hide Step, Run;
        if current.ChunkBodyStart? { current, spanPos := ChunkBody, Some(p); }
        if current.IdentityStart? { current, spanPos := Identity, Some(p); }
        n := ConsumeContentLength(buf, p);
      }
    }

    method ConsumeContentLength(buf: string, p: nat) returns (n: nat)
      requires Valid() && p < |buf| && (current.ChunkBody? || current.Identity?) && spanPos.value <= p
      modifies this, callbacks
      ensures Valid() && p < n <= |buf| && (spanPos.Some? ==> spanPos.value <= n)
      ensures Run(old(View(Span(buf, p))), buf[p..]) == Run(View(Span(buf, n)), buf[n..])
    {
      var avail := |buf| - p;
      var need := contentLength;
      hide Run, Step, CompleteMessage;
      RunCounted(View(Span(buf, p)), buf[p..], current);
      if avail >= need {
        n := p + need;
        contentLength := 0;
        assert buf[spanPos.value..p] + buf[p..][..need] == buf[spanPos.value..n];
        assert buf[p..][need..] == buf[n..];
        callbacks.OnBody(buf[spanPos.value..n]);
        spanPos := None;
        if current.ChunkBody? { current := ChunkDataAlmostDone; } else { OnMessageComplete(); }
      } else {
        contentLength := contentLength - avail;
        n := |buf|;
        assert buf[spanPos.value..p] + buf[p..] == buf[spanPos.value..n];
        RunNothing(View(Span(buf, n)));
      }
    }

    lemma RunNothing(s: State)
      ensures Run(s, "") == (s, "")
    {
    }

    /** The states between chunks take one byte at a time. */
    method StateByte(c: char)
      requires Valid() && !Terminal(View("")) && !SpanOpen(current)
      requires !current.ChunkBodyStart? && !current.IdentityStart? && !current.EofStart?
      modifies this, callbacks
      ensures Valid() && spanPos.None?
      ensures View("") == Step(old(View("")), c)
    {
      match current {
        case ChunkSizeDigit =>
          if HexDigit(c).Some? { SizeByte(HexDigit(c).value); } else { current := InvalidChunk; }
        case ChunkSize =>
          if HexDigit(c).Some? {
            SizeByte(HexDigit(c).value);
          } else if c == CR {
            current := ChunkSizeAlmostDone;
          } else if c == ' ' || c == ';' {
            current := ChunkParameters;
          } else {
            current := InvalidChunk;
          }
        case ChunkParameters =>
          if c == CR { current := ChunkSizeAlmostDone; }
        case ChunkSizeAlmostDone =>
          callbacks.chunkHeaders := callbacks.chunkHeaders + 1;
          if contentLength == 0 {
            flags := flags + {Trailing};
            current := TrailerStart;
          } else {
            current := ChunkBodyStart;
          }
        case ChunkDataAlmostDone => current := ChunkDataSkip;
        case ChunkDataSkip =>
          callbacks.chunkCompletes := callbacks.chunkCompletes + 1;
          contentLength := 0;
          current := ChunkSizeDigit;
        case TrailerStart =>
          if c == LF {
            HeadersAlmostDone();
          } else if c == CR {
            current := TrailerAlmostDone;
          } else {
            current := TrailerField;
          }
        case TrailerAlmostDone => HeadersAlmostDone();
      }
    }

    /** `mul_add_content_length` with base 16. */
    method SizeByte(digit: nat)
      requires digit < 16
      modifies this`contentLength, this`current
      ensures MulAdd(old(contentLength), 16, digit, MAX64) ==
              if current.InvalidChunk? then None else Some(contentLength)
      ensures current.InvalidChunk? || current.ChunkSize?
      ensures current.InvalidChunk? ==> contentLength == old(contentLength)
    {
      if contentLength > MAX64 / 16 || contentLength * 16 > MAX64 - digit {
        current := InvalidChunk;
        return;
      }
      contentLength := contentLength * 16 + digit;
      current := ChunkSize;
    }

    /** The blank line after the last chunk. */
    method HeadersAlmostDone()
      requires Valid() && spanPos.None?
      modifies this, callbacks
      ensures Valid() && spanPos.None? && View("") == EndOfChunks(old(View("")))
    {
      callbacks.chunkCompletes := callbacks.chunkCompletes + 1;
      OnMessageComplete();
    }
  }
}
