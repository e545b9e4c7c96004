/** What the server's connection collects while a multipart body is parsed. */
module Upload {
  /** Header names compare without regard to case; the first spelling is kept. */
  type Headers = map<string, (string, string)>

  datatype Part = Part(headers: Headers, data: string)

  datatype Phase = NoHeader | InField | InValue

  /** `fieldText` and `valueText` are the header being read, `buffer` the data of the part being read. */
  datatype Reader = Reader(phase: Phase, fieldText: string, valueText: string, headers: Headers,
                           buffer: string, parts: seq<Part>)

  const Idle := Reader(NoHeader, "", "", map[], "", [])

  function LowerChar(c: char): char {
    if 'A' <= c <= 'Z' then (c as int + 32) as char else c
  }

  function Lower(s: string): (r: string)
    ensures |r| == |s|
  {
    seq(|s|, i requires 0 <= i < |s| => LowerChar(s[i]))
  }

  /**
   * `MultiPart::AppendHeader` with the reader's field and value moved in. A known field only
   * takes the new value, so its text is not moved out.
   */
  function AppendHeader(r: Reader): Reader {
    var key := Lower(r.fieldText);
    if key in r.headers then
      r.(headers := r.headers[key := (r.headers[key].0, r.valueText)], valueText := "")
    else
      r.(headers := r.headers[key := (r.fieldText, r.valueText)], fieldText := "", valueText := "")
  }

  function OnHeaderField(r: Reader, at: string): Reader {
    var s := if r.phase.InValue? && r.fieldText != "" then AppendHeader(r).(phase := InField) else r;
    s.(fieldText := s.fieldText + at)
  }

  function OnHeaderValue(r: Reader, at: string): Reader {
    var oldValue := if r.phase.InField? && r.valueText != "" then "" else r.valueText;
    r.(phase := InValue, valueText := oldValue + at)
  }

  function OnHeadersComplete(r: Reader): Reader {
    if r.phase.InValue? && r.fieldText != "" then AppendHeader(r).(phase := NoHeader) else r
  }

  function OnDataBegin(r: Reader): Reader {
    r.(phase := NoHeader, fieldText := "", valueText := "", buffer := "")
  }

  function OnData(r: Reader, at: string): Reader {
    r.(buffer := r.buffer + at)
  }

  function OnDataEnd(r: Reader): Reader {
    r.(parts := r.parts + [Part(r.headers, r.buffer)], headers := map[], buffer := "")
  }
}

/** The byte automaton of the multipart parser, one byte and one buffer at a time. */
module MultipartSpec {
  import opened Options
  import opened Upload

  const CR := '\r'
  const LF := '\n'

  datatype State =
    | Start | StartBoundary
    | HeaderFieldStart | HeaderField | HeadersAlmostDone
    | HeaderValueStart | HeaderValue | HeaderValueAlmostDone
    | PartDataStart | PartData | PartDataAlmostBoundary | PartDataBoundary
    | PartDataAlmostEnd | PartDataEnd | PartDataFinalHyphen | End

  /** `held` is the stretch of the current buffer that is not handed to a callback yet. */
  datatype Machine = Machine(state: State, index: nat, held: string, reader: Reader)

  const Fresh := Machine(Start, 0, "", Idle)

  predicate Letter(c: char) {
    'a' <= LowerChar(c) <= 'z'
  }

  /** The index into the boundary stays meaningful. */
  predicate InRange(b: string, m: Machine) {
    && (m.state.StartBoundary? ==> m.index <= |b| + 1)
    && (m.state.PartDataBoundary? ==> m.index < |b|)
    && (m.held != "" ==> m.state.HeaderField? || m.state.HeaderValue? || m.state.PartData?)
  }

  /** What the parser has matched of CR LF boundary without having handed it out. */
  function Lookbehind(b: string, m: Machine): string
    requires InRange(b, m)
  {
    if m.state.PartDataAlmostBoundary? then [CR]
    else if m.state.PartDataBoundary? then [CR, LF] + b[..m.index]
    else ""
  }

  /** A byte in part data. */
  function DataByte(m: Machine, c: char): Machine {
    if c == CR then m.(state := PartDataAlmostBoundary, held := "", reader := OnData(m.reader, m.held))
    else m.(state := PartData, held := m.held + [c])
  }

  /** The lookbehind turns out to be data; the byte that showed it is looked at again. */
  function Release(b: string, m: Machine): Machine
    requires InRange(b, m)
  {
    m.(state := PartData, held := "", reader := OnData(m.reader, Lookbehind(b, m)))
  }

  function StartByte(b: string, m: Machine, c: char): Option<Machine>
    requires m.index <= |b| + 1
  {
    if m.index == |b| then
      if c != CR then None else Some(m.(index := m.index + 1))
    else if m.index == |b| + 1 then
      if c != LF then None
      else Some(m.(index := 0, reader := OnDataBegin(m.reader), state := HeaderFieldStart))
    else if c != b[m.index] then None
    else Some(m.(index := m.index + 1))
  }

  function FieldByte(m: Machine, c: char): Option<Machine> {
    if c == CR then Some(m.(state := HeadersAlmostDone, held := ""))
    else if c == ':' then
      Some(m.(state := HeaderValueStart, held := "", reader := OnHeaderField(m.reader, m.held)))
    else if c != '-' && !Letter(c) then None
    else Some(m.(held := m.held + [c]))
  }

  function ValueByte(m: Machine, c: char): Machine {
    if c == CR then m.(state := HeaderValueAlmostDone, held := "", reader := OnHeaderValue(m.reader, m.held))
    else m.(held := m.held + [c])
  }

  /** One byte; `None` when the parser gives up on it. */
  function Feed(b: string, m: Machine, c: char): (r: Option<Machine>)
    requires InRange(b, m) && b != ""
    ensures r.Some? ==> InRange(b, r.value)
  {
    match m.state
    case Start => StartByte(b, m.(state := StartBoundary, index := 0), c)
    case StartBoundary => StartByte(b, m, c)
    case HeaderFieldStart => FieldByte(m.(state := HeaderField, held := ""), c)
    case HeaderField => FieldByte(m, c)
    case HeadersAlmostDone => if c != LF then None else Some(m.(state := PartDataStart))
    case HeaderValueStart => if c == ' ' then Some(m) else Some(ValueByte(m.(state := HeaderValue, held := ""), c))
    case HeaderValue => Some(ValueByte(m, c))
    case HeaderValueAlmostDone => if c != LF then None else Some(m.(state := HeaderFieldStart))
    case PartDataStart => Some(DataByte(m.(held := "", reader := OnHeadersComplete(m.reader)), c))
    case PartData => Some(DataByte(m, c))
    case PartDataAlmostBoundary =>
      if c == LF then Some(m.(state := PartDataBoundary, index := 0))
      else Some(DataByte(Release(b, m), c))
    case PartDataBoundary =>
      if b[m.index] != c then Some(DataByte(Release(b, m), c))
      else if m.index + 1 == |b| then
        Some(m.(index := m.index + 1, reader := OnDataEnd(m.reader), state := PartDataAlmostEnd))
      else Some(m.(index := m.index + 1))
    case PartDataAlmostEnd =>
      if c == '-' then Some(m.(state := PartDataFinalHyphen))
      else if c == CR then Some(m.(state := PartDataEnd))
      else None
    case PartDataFinalHyphen => if c == '-' then Some(m.(state := End)) else None
    case PartDataEnd =>
      if c == LF then Some(m.(state := HeaderFieldStart, reader := OnDataBegin(m.reader))) else None
    case End => Some(m)
  }

  function Run(b: string, m: Machine, s: string): (r: Option<Machine>)
    requires InRange(b, m) && b != ""
    ensures r.Some? ==> InRange(b, r.value)
    decreases |s|
  {
    if s == "" then Some(m)
    else
      var next :- Feed(b, m, s[0]);
      Run(b, next, s[1..])
  }

  /** The end of a buffer hands out what is held. */
  function Flush(m: Machine): Machine {
    var r := m.reader;
    if m.held == "" then m
    else
      m.(held := "",
         reader := if m.state.HeaderField? then OnHeaderField(r, m.held)
                   else if m.state.HeaderValue? then OnHeaderValue(r, m.held)
                   else OnData(r, m.held))
  }

  /** One call of `multipart_parser_execute`. */
  function Execute(b: string, m: Machine, buf: string): (r: Option<Machine>)
    requires InRange(b, m) && b != ""
    ensures r.Some? ==> InRange(b, r.value)
  {
    var done :- Run(b, m, buf);
    Some(Flush(done))
  }

  /** A body that arrives in several buffers; the first one that fails ends it. */
  function ExecuteAll(b: string, m: Machine, bufs: seq<string>): (r: Option<Machine>)
    requires InRange(b, m) && b != ""
    ensures r.Some? ==> InRange(b, r.value)
    decreases |bufs|
  {
    if bufs == [] then Some(m)
    else
      var next :- Execute(b, m, bufs[0]);
      ExecuteAll(b, next, bufs[1..])
  }

  /** The parser accepts the first `n` bytes and refuses the next one. */
  predicate GivesUpAt(b: string, m: Machine, s: string, n: nat)
    requires InRange(b, m) && b != ""
  {
    && n < |s|
    && Run(b, m, s[..n]).Some?
    && Feed(b, Run(b, m, s[..n]).value, s[n]).None?
  }

  lemma RunNone(b: string, m: Machine)
    requires InRange(b, m) && b != ""
    ensures Run(b, m, "") == Some(m)
    ensures m.held == "" ==> Flush(m) == m
  {
  }

  lemma RunOneMore(b: string, m: Machine, s: string, n: nat)
    requires InRange(b, m) && b != "" && n < |s| && Run(b, m, s[..n]).Some?
    ensures Run(b, m, s[..n + 1]) == Feed(b, Run(b, m, s[..n]).value, s[n])
  {
    hide Feed;
    assert s[..n + 1] == s[..n] + [s[n]];
    RunSplits(b, m, s[..n], [s[n]]);
  }

  lemma {:induction false} RunSplits(b: string, m: Machine, s: string, t: string)
    requires InRange(b, m) && b != ""
    ensures Run(b, m, s + t) ==
            match Run(b, m, s)
            case None => None
            case Some(next) => Run(b, next, t)
    decreases |s|
  {
    if s == "" {
      assert s + t == t;
    } else {
      hide Feed;
      assert (s + t)[1..] == s[1..] + t;
      var next := Feed(b, m, s[0]);
      if next.Some? { RunSplits(b, next.value, s[1..], t); }
    }
  }
}

/** The parser and the connection as the objects they are. */
module MultipartParser {
  import opened Options
  import opened Upload
  import opened MultipartSpec

  /** The part of the connection that the parser's callbacks work on. */
  class Connection {
    var phase: Phase
    var readingHeaderField: string
    var readingHeaderValue: string
    var partHeaders: Headers
    var partBuffer: string
    var parts: seq<Part>

    constructor ()
      ensures View() == Idle
    {
      phase, readingHeaderField, readingHeaderValue := NoHeader, "", "";
      partHeaders, partBuffer, parts := map[], "", [];
    }

    ghost function View(): Reader
      reads this
    {
      Reader(phase, readingHeaderField, readingHeaderValue, partHeaders, partBuffer, parts)
    }

    method AppendPartHeader()
      modifies this`partHeaders, this`readingHeaderField, this`readingHeaderValue
      ensures View() == AppendHeader(old(View()))
    {
      var key := Lower(readingHeaderField);
      if key in partHeaders {
        partHeaders := partHeaders[key := (partHeaders[key].0, readingHeaderValue)];
      } else {
        partHeaders := partHeaders[key := (readingHeaderField, readingHeaderValue)];
        readingHeaderField := "";
      }
      readingHeaderValue := "";
    }

    method HeaderField(at: string)
      modifies this
      ensures View() == OnHeaderField(old(View()), at)
    {
      if phase.InValue? && readingHeaderField != "" {
        AppendPartHeader();
        phase := InField;
      }
      readingHeaderField := readingHeaderField + at;
    }

    method HeaderValue(at: string)
      modifies this
      ensures View() == OnHeaderValue(old(View()), at)
    {
      if phase.InField? && readingHeaderValue != "" { readingHeaderValue := ""; }
      if |at| > 0 { readingHeaderValue := readingHeaderValue + at; }
      if !phase.InValue? { phase := InValue; }
    }

    method HeadersComplete()
      modifies this
      ensures View() == OnHeadersComplete(old(View()))
    {
      if phase.InValue? && readingHeaderField != "" {
        AppendPartHeader();
        phase := NoHeader;
      }
    }

    method DataBegin()
      modifies this
      ensures View() == OnDataBegin(old(View()))
    {
      phase, readingHeaderField, readingHeaderValue, partBuffer := NoHeader, "", "", "";
    }

    method Data(at: string)
      modifies this
      ensures View() == OnData(old(View()), at)
    {
      partBuffer := partBuffer + at;
    }

    method DataEnd()
      modifies this
      ensures View() == OnDataEnd(old(View()))
    {
      parts := parts + [Part(partHeaders, partBuffer)];
      partHeaders, partBuffer := map[], "";
    }
  }

  class Parser {
    const boundary: string
    const connection: Connection
    const lookbehind: array<char>
    var state: State
    var index: nat

    ghost predicate Valid()
      reads this, lookbehind
    {
      && boundary != "" && lookbehind.Length == |boundary| + 8
      && (state.StartBoundary? ==> index <= |boundary| + 1)
      && (state.PartDataAlmostBoundary? ==> lookbehind[0] == CR)
      && (state.PartDataBoundary? ==> index < |boundary| && lookbehind[..2 + index] == [CR, LF] + boundary[..index])
    }

    /** The parser between two calls, when nothing is held. */
    ghost function View(held: string): Machine
      reads this, connection
    {
      Machine(state, index, held, connection.View())
    }

    /** The connection puts two hyphens before the boundary of the content type. */
    constructor (name: string, connection: Connection)
      ensures Valid() && boundary == "--" + name && this.connection == connection && fresh(lookbehind)
      ensures state.Start? && index == 0
    {
      this.boundary := "--" + name;
      this.connection := connection;
      this.lookbehind := new char[|name| + 10];
      state, index := Start, 0;
    }

    /** The bytes since `mark` count only where the automaton collects a stretch. */
    ghost function Held(s: string): string
      reads this
    {
      if state.HeaderField? || state.HeaderValue? || state.PartData? then s else ""
    }

    /**
     * Consumes `buf` and returns how many bytes were accepted; a parser that gives up does so
     * exactly at the first byte the automaton refuses.
     */
    method Execute(buf: string) returns (n: nat)
      requires Valid()
      modifies this, connection, lookbehind
      ensures Valid() && n <= |buf|
      ensures n == |buf| ==> MultipartSpec.Execute(boundary, old(View("")), buf) == Some(View(""))
      ensures n < |buf| ==> GivesUpAt(boundary, old(View("")), buf, n)
    {
      hide Run, Feed, Flush;
      ghost var m0 := View("");
      ghost var x := m0;
      RunNone(boundary, m0);
      assert buf[..0] == "";
      var i, mark := 0, 0;
      while i < |buf|
        invariant 0 <= mark <= i <= |buf| && Valid() && InRange(boundary, x)
        invariant Run(boundary, m0, buf[..i]) == Some(x)
        invariant i < |buf| ==> Feed(boundary, x, buf[i]) == Feed(boundary, View(Held(buf[mark..i])), buf[i])
        invariant i == |buf| ==> View("") == Flush(x)
        decreases |buf| - i, if state.PartDataAlmostBoundary? || state.PartDataBoundary? then 1 else 0
      {
        hide OnHeaderField, OnHeaderValue, OnHeadersComplete, OnDataBegin, OnDataEnd;
        var ok, again;
        ok, again, mark := Byte(buf, i, mark);
        if !ok { return i; }
        assert again ==> buf[mark..i] == "";
        if !again {
          RunOneMore(boundary, m0, buf, i);
          x := Feed(boundary, x, buf[i]).value;
          i := i + 1;
        }
      }
      assert buf[..|buf|] == buf;
      return |buf|;
    }

    /**
     * One turn of the loop at byte `i`. With `again` the byte has only shown that the lookbehind
     * is data; it is looked at once more.
     */
    method Byte(buf: string, i: nat, mark: nat) returns (ok: bool, again: bool, mark': nat)
      requires Valid() && mark <= i < |buf|
      modifies this, connection, lookbehind
      ensures Valid() && mark <= mark' <= i + 1 && (again ==> ok)
      ensures var m := old(View(Held(buf[mark..i])));
              var next := Feed(boundary, m, buf[i]);
              && ok == next.Some?
              && (again ==> (m.state.PartDataAlmostBoundary? || m.state.PartDataBoundary?) && state.PartData? && mark' == i
                            && Feed(boundary, View(""), buf[i]) == next)
              && (ok && !again && i + 1 < |buf| ==> mark' <= i + 1 && next.value == View(Held(buf[mark'..i + 1])))
              && (ok && !again && i + 1 == |buf| ==> Flush(next.value) == View(""))
    {
      if state.PartDataStart? || state.PartData? || state.PartDataAlmostBoundary? || state.PartDataBoundary? {
        again, mark' := DataState(buf, i, mark);
        ok := true;
      } else {
        ok, mark' := OtherState(buf, i, mark);
        again := false;
      }
    }

    method DataState(buf: string, i: nat, mark: nat) returns (again: bool, mark': nat)
      requires Valid() && mark <= i < |buf|
      requires state.PartDataStart? || state.PartData? || state.PartDataAlmostBoundary? || state.PartDataBoundary?
      modifies this, connection, lookbehind
      ensures Valid() && mark <= mark' <= i + 1
      ensures var m := old(View(Held(buf[mark..i])));
              var next := Feed(boundary, m, buf[i]);
              && next.Some?
              && (again ==> (m.state.PartDataAlmostBoundary? || m.state.PartDataBoundary?) && state.PartData? && mark' == i
                            && Feed(boundary, View(""), buf[i]) == next)
              && (!again && i + 1 < |buf| ==> next.value == View(Held(buf[mark'..i + 1])))
              && (!again && i + 1 == |buf| ==> Flush(next.value) == View(""))
    {
      hide OnHeadersComplete, OnDataEnd;
      var c := buf[i];
      var isLast := i == |buf| - 1;
      again, mark' := false, mark;
      match state {
        case PartDataStart =>
          connection.HeadersComplete();
          mark' := i;
          state := PartData;
          mark' := DataByte(buf, i, mark');
        case PartData =>
          mark' := DataByte(buf, i, mark');
        case PartDataAlmostBoundary =>
          if c == LF {
            state := PartDataBoundary;
            lookbehind[1] := LF;
            index := 0;
            assert lookbehind[..2] == [CR, LF];
          } else {
            connection.Data(lookbehind[..1]);
            assert lookbehind[..1] == [CR];
            state := PartData;
            mark', again := i, true;
          }
        case PartDataBoundary =>
          if boundary[index] != c {
            connection.Data(lookbehind[..2 + index]);
            state := PartData;
            mark', again := i, true;
          } else {
            lookbehind[2 + index] := c;
            index := index + 1;
            assert boundary[..index] == boundary[..index - 1] + [c];
            if index == |boundary| {
              connection.DataEnd();
              state := PartDataAlmostEnd;
            }
          }
      }
    }

    /** The shared tail of the two data states. */
    method DataByte(buf: string, i: nat, mark: nat) returns (mark': nat)
      requires Valid() && mark <= i < |buf| && state.PartData?
      modifies this`state, connection, lookbehind
      ensures Valid() && mark <= mark' <= i
      ensures var next := MultipartSpec.DataByte(old(View(buf[mark..i])), buf[i]);
              && (i + 1 < |buf| ==> next == View(Held(buf[mark'..i + 1])))
              && (i + 1 == |buf| ==> Flush(next) == View(""))
    {
      mark' := mark;
      assert buf[mark..i] + [buf[i]] == buf[mark..i + 1];
      if buf[i] == CR {
        connection.Data(buf[mark..i]);
        mark' := i;
        state := PartDataAlmostBoundary;
        lookbehind[0] := CR;
      } else if i == |buf| - 1 {
        connection.Data(buf[mark..i + 1]);
      }
    }

    method OtherState(buf: string, i: nat, mark: nat) returns (ok: bool, mark': nat)
      requires Valid() && mark <= i < |buf|
      requires !state.PartDataStart? && !state.PartData? && !state.PartDataAlmostBoundary? && !state.PartDataBoundary?
      modifies this, connection
      ensures Valid() && mark <= mark' <= i
      ensures var m := old(View(Held(buf[mark..i])));
              var next := Feed(boundary, m, buf[i]);
              && ok == next.Some?
              && (ok && i + 1 < |buf| ==> next.value == View(Held(buf[mark'..i + 1])))
              && (ok && i + 1 == |buf| ==> Flush(next.value) == View(""))
    {
      hide OnHeaderField, OnHeaderValue, OnDataBegin;
      var c := buf[i];
      assert buf[i..i] == "";
      ok, mark' := true, mark;
      match state {
        case Start =>
          index := 0;
          state := StartBoundary;
          ok := BoundaryByte(c);
        case StartBoundary =>
          ok := BoundaryByte(c);
        case HeaderFieldStart =>
          mark' := i;
          state := HeaderField;
          ok := FieldByte(buf, i, mark');
        case HeaderField =>
          ok := FieldByte(buf, i, mark');
        case HeadersAlmostDone =>
          if c != LF { return false, mark'; }
          state := PartDataStart;
        case HeaderValueStart =>
          if c != ' ' {
            mark' := i;
            state := HeaderValue;
            ValueByte(buf, i, mark');
          }
        case HeaderValue =>
          ValueByte(buf, i, mark');
        case HeaderValueAlmostDone =>
          if c != LF { return false, mark'; }
          state := HeaderFieldStart;
        case PartDataAlmostEnd =>
          if c == '-' {
            state := PartDataFinalHyphen;
          } else if c == CR {
            state := PartDataEnd;
          } else {
            ok := false;
          }
        case PartDataFinalHyphen =>
          if c == '-' { state := End; } else { ok := false; }
        case PartDataEnd =>
          if c == LF {
            state := HeaderFieldStart;
            connection.DataBegin();
          } else {
            ok := false;
          }
        case End =>
      }
    }

    method BoundaryByte(c: char) returns (ok: bool)
      requires Valid() && state.StartBoundary?
      modifies this, connection
      ensures Valid()
      ensures var next := StartByte(boundary, old(View("")), c);
              ok == next.Some? && (ok ==> next.value == View(""))
    {
      if index == |boundary| {
        if c != CR { return false; }
        index := index + 1;
        return true;
      } else if index == |boundary| + 1 {
        if c != LF { return false; }
        index := 0;
        connection.DataBegin();
        state := HeaderFieldStart;
        return true;
      }
      if c != boundary[index] { return false; }
      index := index + 1;
      return true;
    }

    method FieldByte(buf: string, i: nat, mark: nat) returns (ok: bool)
      requires Valid() && mark <= i < |buf| && state.HeaderField?
      modifies this`state, connection
      ensures Valid()
      ensures var next := MultipartSpec.FieldByte(old(View(buf[mark..i])), buf[i]);
              && ok == next.Some?
              && (ok && i + 1 < |buf| ==> next.value == View(Held(buf[mark..i + 1])))
              && (ok && i + 1 == |buf| ==> Flush(next.value) == View(""))
    {
      var c := buf[i];
      assert buf[mark..i] + [c] == buf[mark..i + 1];
      if c == CR {
        state := HeadersAlmostDone;
        return true;
      }
      if c == ':' {
        connection.HeaderField(buf[mark..i]);
        state := HeaderValueStart;
        return true;
      }
      if c != '-' && !Letter(c) { return false; }
      if i == |buf| - 1 { connection.HeaderField(buf[mark..i + 1]); }
      return true;
    }

    method ValueByte(buf: string, i: nat, mark: nat)
      requires Valid() && mark <= i < |buf| && state.HeaderValue?
      modifies this`state, connection
      ensures Valid()
      ensures var next := MultipartSpec.ValueByte(old(View(buf[mark..i])), buf[i]);
              && (i + 1 < |buf| ==> next == View(Held(buf[mark..i + 1])))
              && (i + 1 == |buf| ==> Flush(next) == View(""))
    {
      assert buf[mark..i] + [buf[i]] == buf[mark..i + 1];
      if buf[i] == CR {
        connection.HeaderValue(buf[mark..i]);
        state := HeaderValueAlmostDone;
      } else if i == |buf| - 1 {
        connection.HeaderValue(buf[mark..i + 1]);
      }
    }
  }
}
