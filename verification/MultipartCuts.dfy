/** Which cuts of a stream show in the parts, for all streams. */
module HeaderCuts {
  import opened Options
  import opened Buffers
  import opened Upload
  import opened MultipartSpec
  import opened Delimiters
  import opened Fragments
  import opened MultipartRoundTrip

  // ----- What of a header block lasts -----

  function Blank(r: Reader): Reader { r.(phase := NoHeader, fieldText := "", valueText := "") }

  /** Past the header lines only the filed headers, the data and the finished parts matter; before, everything does. */
  function Lasting(m: Machine): Machine {
    if m.state.HeadersAlmostDone? || m.state.PartDataStart? then m.(reader := Blank(OnHeadersComplete(m.reader)))
    else if InData(m.state) then m.(reader := Blank(m.reader))
    else m
  }

  predicate InData(state: State) {
    state.PartData? || state.PartDataAlmostBoundary? || state.PartDataBoundary? || state.PartDataAlmostEnd?
    || state.PartDataEnd? || state.PartDataFinalHyphen? || state.End?
  }

  predicate SameForParts(m: Machine, n: Machine) {
    Lasting(Flush(m)) == Lasting(Flush(n))
  }

  lemma SameParts(m: Machine, n: Machine)
    requires SameForParts(m, n)
    ensures m.state == n.state && m.reader.parts == n.reader.parts
  {
    hide AppendHeader;
    LastingKeeps(m);
    LastingKeeps(n);
  }

  lemma LastingKeeps(m: Machine)
    ensures Lasting(Flush(m)).state == m.state && Lasting(Flush(m)).reader.parts == m.reader.parts
  {
  }

  /** A colonless line changes nothing that lasts, whether or not a cut has shown its name. */
  lemma ColonlessForgotten(r: Reader, h: string)
    requires h != "" && !(r.phase.InValue? && r.fieldText == "")
    ensures Blank(OnHeadersComplete(OnHeaderField(r, h))) == Blank(OnHeadersComplete(r))
  {
    hide Lower;
  }

  /** Behind a line without a name it does, unless the waiting value is filed under the name already. */
  lemma ColonlessFiles(r: Reader, h: string)
    requires h != "" && r.phase.InValue? && r.fieldText == ""
    ensures Blank(OnHeadersComplete(OnHeaderField(r, h))) == Blank(OnHeadersComplete(r))
       <==> AppendHeader(r.(fieldText := h)).headers == r.headers
  {
    hide Lower;
    assert "" + h == h;
  }

  /**
   * A buffer end before `c` shows in what lasts: it is inside a name behind a line without one, and the line goes on, or
   * ends there and files the waiting value.
   */
  predicate NameShows(m: Machine, c: char) {
    NameAfterNameless(m) && (c == CR ==> AppendHeader(m.reader.(fieldText := m.held)).headers != m.reader.headers)
  }

  /** A buffer end before the next byte shows in what lasts exactly then. */
  lemma BufferEndLastsExactly(b: string, m: Machine, c: char)
    requires b != "" && InRange(b, m) && Feed(b, m, c).Some?
    ensures InRange(b, Flush(m)) && Feed(b, Flush(m), c).Some?
    ensures SameForParts(Feed(b, Flush(m), c).value, Feed(b, m, c).value)
       <==> !NameShows(m, c)
  {
    hide AppendHeader, Feed, Flush, OnHeadersComplete, OnHeaderField;
    BufferEndShowsExactly(b, m, c);
    if m.held != "" && m.state.HeaderField? {
      NameByte(b, m, c);
      if c == CR {
        if NameAfterNameless(m) { ColonlessFiles(m.reader, m.held); } else { ColonlessForgotten(m.reader, m.held); }
      }
    }
  }

  /** What lasts behind a colonless line. */
  function Dropped(m: Machine, r: Reader): Machine {
    m.(state := HeadersAlmostDone, held := "", reader := Blank(OnHeadersComplete(r)))
  }

  /** A byte behind a name that is held, and behind the same name handed out. */
  lemma NameByte(b: string, m: Machine, c: char)
    requires b != "" && InRange(b, m) && m.held != "" && m.state.HeaderField? && Feed(b, m, c).Some?
    ensures Feed(b, Flush(m), c).Some?
    ensures var cut, whole := Feed(b, Flush(m), c).value, Feed(b, m, c).value;
            && (c == CR ==> Lasting(Flush(cut)) == Dropped(m, OnHeaderField(m.reader, m.held)))
            && (c == CR ==> Lasting(Flush(whole)) == Dropped(m, m.reader))
            && (c != CR ==> Lasting(Flush(cut)) == Flush(cut) && Lasting(Flush(whole)) == Flush(whole))
  {
    hide AppendHeader, OnHeaderField, OnHeadersComplete;
  }

  // ----- Streams -----

  /**
   * No name follows a line without a name, but one of a single character that is filed with that value already: read off
   * the uncut stream.
   */
  predicate NamesSafe(b: string, m: Machine, s: string)
    requires b != "" && InRange(b, m)
    decreases |s|
  {
    s == "" ||
    (!NameShows(m, s[0]) && (Feed(b, m, s[0]).Some? ==> NamesSafe(b, Feed(b, m, s[0]).value, s[1..])))
  }

  /** While the stream is not cut, a name that is being read is held. */
  predicate Uncut(m: Machine) { m.state.HeaderField? ==> m.held != "" }

  lemma FeedUncut(b: string, m: Machine, c: char)
    requires b != "" && InRange(b, m) && Uncut(m)
    ensures Feed(b, m, c).Some? ==> Uncut(Feed(b, m, c).value)
  {
    hide OnHeaderField, OnHeaderValue, OnHeadersComplete;
  }

  /** So a cut machine does not show anything if the uncut one does not. */
  lemma SafeTogether(m: Machine, n: Machine, c: char)
    requires SameForParts(m, n) && Uncut(n) && !NameShows(n, c)
    ensures !NameShows(m, c)
  {
    hide AppendHeader, OnHeadersComplete;
    if NameAfterNameless(m) {
      LastingKeeps(m);
      LastingKeeps(n);
      assert Flush(m) == Flush(n);
      assert Flush(m).reader.phase.InValue?;
      FlushedName(n);
      NamelessFiles(m.reader, m.held, "");
      NamelessFiles(n.reader, n.held, "");
      SameNameless(m, n);
    }
  }

  lemma FlushedName(n: Machine)
    requires n.state.HeaderField? && n.held != "" && Flush(n).reader.phase.InValue?
    ensures NameAfterNameless(n)
  {
    hide AppendHeader;
  }

  lemma SameNameless(m: Machine, n: Machine)
    requires NameAfterNameless(m) && NameAfterNameless(n) && Flush(m) == Flush(n)
    ensures m == n
  {
    hide AppendHeader;
    assert "" + m.held == m.held && "" + n.held == n.held;
    assert Flush(m).reader.fieldText == m.held && Flush(n).reader.fieldText == n.held;
    assert m.reader == Flush(m).reader.(fieldText := "") && n.reader == Flush(n).reader.(fieldText := "");
  }

  /** With nothing held, machines that are the same for the parts stay so. */
  lemma FlushedFeedSame(b: string, m: Machine, n: Machine, c: char)
    requires b != "" && InRange(b, m) && InRange(b, n) && m.held == "" && n.held == "" && SameForParts(m, n)
    ensures Feed(b, m, c).Some? <==> Feed(b, n, c).Some?
    ensures Feed(b, m, c).Some? ==> SameForParts(Feed(b, m, c).value, Feed(b, n, c).value)
  {
    hide AppendHeader, OnHeadersComplete;
    assert Flush(m) == m && Flush(n) == n;
    LastingKeeps(m);
    LastingKeeps(n);
    if m != n { LateFeedSame(b, m, n, c); }
  }

  lemma LateFeedSame(b: string, m: Machine, n: Machine, c: char)
    requires b != "" && InRange(b, m) && InRange(b, n) && m.held == "" && n.held == ""
    requires m.state == n.state && Lasting(m) == Lasting(n)
    requires m.state.HeadersAlmostDone? || m.state.PartDataStart? || InData(m.state)
    ensures Feed(b, m, c).Some? <==> Feed(b, n, c).Some?
    ensures Feed(b, m, c).Some? ==> SameForParts(Feed(b, m, c).value, Feed(b, n, c).value)
  {
    hide AppendHeader, OnHeadersComplete, OnHeaderField, OnHeaderValue, Lookbehind;
    assert m.index == n.index;
    if !m.state.HeadersAlmostDone? && !m.state.PartDataStart? {
      assert m.reader == n.reader.(phase := m.reader.phase, fieldText := m.reader.fieldText, valueText := m.reader.valueText);
      assert Lookbehind(b, m) == Lookbehind(b, n) by { SameLookbehind(b, m, n); }
    }
  }

  lemma SameLookbehind(b: string, m: Machine, n: Machine)
    requires InRange(b, m) && InRange(b, n) && m.state == n.state && m.index == n.index
    ensures Lookbehind(b, m) == Lookbehind(b, n)
  {
  }

  lemma FeedSameForParts(b: string, m: Machine, n: Machine, c: char)
    requires b != "" && InRange(b, m) && InRange(b, n) && SameForParts(m, n) && Uncut(n) && !NameShows(n, c)
    ensures Feed(b, m, c).Some? <==> Feed(b, n, c).Some?
    ensures Feed(b, m, c).Some? ==> SameForParts(Feed(b, m, c).value, Feed(b, n, c).value)
  {
    hide Feed, Lasting, NameShows, Flush;
    SafeTogether(m, n, c);
    BufferEndShowsExactly(b, m, c);
    BufferEndShowsExactly(b, n, c);
    FlushInRange(b, m);
    FlushInRange(b, n);
    FlushAgain(b, m);
    FlushAgain(b, n);
    FlushedFeedSame(b, Flush(m), Flush(n), c);
    if Feed(b, m, c).Some? {
      BufferEndLastsExactly(b, m, c);
      BufferEndLastsExactly(b, n, c);
    }
  }

  lemma FlushAgain(b: string, m: Machine)
    requires InRange(b, m)
    ensures Flush(Flush(m)) == Flush(m)
  {
  }

  lemma {:induction false} RunSameForParts(b: string, m: Machine, n: Machine, s: string)
    requires b != "" && InRange(b, m) && InRange(b, n) && SameForParts(m, n) && Uncut(n) && NamesSafe(b, n, s)
    ensures Run(b, m, s).Some? <==> Run(b, n, s).Some?
    ensures Run(b, m, s).Some? ==> SameForParts(Run(b, m, s).value, Run(b, n, s).value) && Uncut(Run(b, n, s).value)
    decreases |s|
  {
    hide Feed, SameForParts, Uncut, NameShows;
    if s != "" {
      FeedSameForParts(b, m, n, s[0]);
      FeedUncut(b, n, s[0]);
      var m', n' := Feed(b, m, s[0]), Feed(b, n, s[0]);
      if m'.Some? { RunSameForParts(b, m'.value, n'.value, s[1..]); }
    }
  }

  lemma {:induction false} SafeSplits(b: string, m: Machine, s: string, t: string)
    requires b != "" && InRange(b, m) && NamesSafe(b, m, s + t)
    ensures NamesSafe(b, m, s) && (Run(b, m, s).Some? ==> NamesSafe(b, Run(b, m, s).value, t))
    decreases |s|
  {
    hide Feed, NameShows;
    if s == "" {
      assert s + t == t;
    } else {
      assert (s + t)[1..] == s[1..] + t;
      var next := Feed(b, m, s[0]);
      if next.Some? { SafeSplits(b, next.value, s[1..], t); }
    }
  }

  /**
   * For every stream in which no name follows a line without a name, colonless lines or not, every cut is accepted
   * alike, ends in the same state and gives the same parts, headers included.
   */
  lemma {:induction false} CutsSameParts(b: string, m: Machine, n: Machine, bufs: seq<string>)
    requires b != "" && InRange(b, m) && InRange(b, n) && SameForParts(m, n) && Uncut(n) && NamesSafe(b, n, Concat(bufs))
    ensures ExecuteAll(b, m, bufs).Some? <==> Run(b, n, Concat(bufs)).Some?
    ensures ExecuteAll(b, m, bufs).Some? ==>
              var cut, whole := ExecuteAll(b, m, bufs).value, Run(b, n, Concat(bufs)).value;
              SameForParts(cut, whole) && cut.state == whole.state && cut.reader.parts == whole.reader.parts
    decreases |bufs|
  {
    hide Feed, SameForParts, Run, Flush, Uncut, NamesSafe;
    if bufs == [] {
      RunNothing(b, n);
      SameParts(m, n);
    } else {
      RunSplits(b, n, bufs[0], Concat(bufs[1..]));
      SafeSplits(b, n, bufs[0], Concat(bufs[1..]));
      RunSameForParts(b, m, n, bufs[0]);
      var m', n' := Run(b, m, bufs[0]), Run(b, n, bufs[0]);
      if m'.Some? {
        FlushedSame(b, m'.value, n'.value);
        FlushInRange(b, m'.value);
        CutsSameParts(b, Flush(m'.value), n'.value, bufs[1..]);
      }
    }
  }

  lemma FlushedSame(b: string, m: Machine, n: Machine)
    requires InRange(b, m) && SameForParts(m, n)
    ensures SameForParts(Flush(m), n)
  {
    hide Lasting, Flush;
    FlushAgain(b, m);
  }

  lemma {:induction false} FirstShown(b: string, m: Machine, s: string) returns (p: nat)
    requires b != "" && InRange(b, m) && Run(b, m, s).Some? && !NamesSafe(b, m, s)
    ensures p < |s| && Run(b, m, s[..p]).Some? && NameShows(Run(b, m, s[..p]).value, s[p])
    decreases |s|
  {
    hide Feed, NameShows;
    if NameShows(m, s[0]) {
      p := 0;
      assert s[..0] == "";
    } else {
      var next := Feed(b, m, s[0]).value;
      p := FirstShown(b, next, s[1..]);
      p := p + 1;
      assert s[..p][1..] == s[1..][..p - 1];
    }
  }

  /** Whatever of the stream has come, and however it was cut, the same lasts as without cuts. */
  ghost predicate CutsDoNotShow(b: string, s: string)
    requires b != ""
  {
    forall bufs, rest :: Concat(bufs) + rest == s ==> CutDoesNotShow(b, bufs)
  }

  ghost predicate CutDoesNotShow(b: string, bufs: seq<string>)
    requires b != ""
  {
    var cut, whole := ExecuteAll(b, Fresh, bufs), Run(b, Fresh, Concat(bufs));
    (cut.Some? <==> whole.Some?) && (cut.Some? ==> SameForParts(cut.value, whole.value))
  }

  /** For every accepted stream: no cut of it, or of any beginning of it, shows in what lasts if and only if its names are safe. */
  lemma CutsShowExactly(b: string, s: string)
    requires b != "" && Run(b, Fresh, s).Some?
    ensures CutsDoNotShow(b, s) <==> NamesSafe(b, Fresh, s)
  {
    hide Run, NamesSafe, ExecuteAll, SameForParts;
    if NamesSafe(b, Fresh, s) {
      forall bufs, rest | Concat(bufs) + rest == s ensures CutDoesNotShow(b, bufs) {
        SafeSplits(b, Fresh, Concat(bufs), rest);
        SameAsItself(Fresh);
        CutsSameParts(b, Fresh, Fresh, bufs);
      }
    } else {
      var p := FirstShown(b, Fresh, s);
      CutAtShows(b, s, p);
      assert Concat([s[..p], [s[p]]]) + s[p + 1..] == s by { ConcatTwo(s[..p], [s[p]]); }
    }
  }

  lemma SameAsItself(m: Machine)
    ensures SameForParts(m, m)
  {
  }

  lemma ConcatTwo(s: string, t: string)
    ensures Concat([s, t]) == s + t
  {
    assert [s, t][1..] == [t] && [t][1..] == [];
    assert Concat([t]) == t + "" == t;
  }

  lemma CutAtShows(b: string, s: string, p: nat)
    requires b != "" && p < |s| && Run(b, Fresh, s).Some? && Run(b, Fresh, s[..p]).Some?
    requires NameShows(Run(b, Fresh, s[..p]).value, s[p])
    ensures !CutDoesNotShow(b, [s[..p], [s[p]]])
  {
    hide Run, Feed, NameShows, Flush, ExecuteAll, Lasting;
    var m := Run(b, Fresh, s[..p]).value;
    assert s == s[..p + 1] + s[p + 1..];
    RunSplits(b, Fresh, s[..p + 1], s[p + 1..]);
    RunOneMore(b, Fresh, s, p);
    BufferEndLastsExactly(b, m, s[p]);
    OneByteRun(b, Flush(m), s[p]);
    TwoBuffers(b, Fresh, s[..p], [s[p]]);
    ConcatTwo(s[..p], [s[p]]);
    assert s[..p] + [s[p]] == s[..p + 1];
    FlushAgain(b, Feed(b, Flush(m), s[p]).value);
  }

  // ----- Where a cut does show -----

  lemma RunsThen(b: string, m: Machine, s: string, n: Machine, t: string, o: Machine)
    requires b != "" && InRange(b, m) && Run(b, m, s) == Some(n) && Run(b, n, t) == Some(o)
    ensures Run(b, m, s + t) == Some(o)
  {
    hide Run;
    RunSplits(b, m, s, t);
  }

  /** A message whose first header line has no name, up to and including the first piece `h` of the next name. */
  function FrontOf(b: string, v: string, h: string): string {
    b + CRLF + (":" + (v + CRLF)) + h
  }

  /** The rest: the second piece `t` of the name, its value, the data and the last boundary. */
  function RestOf(b: string, t: string, w: string, data: string): string {
    t + ": " + (w + CRLF) + CRLF + (data + Delimiter(b)) + ("--" + "")
  }

  predicate NamePiece(s: string) { s != "" && forall c :: c in s ==> NameChar(c) }

  predicate Plain(s: string) { CR !in s && (s != "" ==> s[0] != ' ') }

  /** The reader behind the line without a name. */
  function Nameless(v: string): Reader { Idle.(phase := InValue, valueText := v) }

  lemma FrontRuns(b: string, v: string, h: string)
    requires b != "" && Plain(v) && NamePiece(h)
    ensures Run(b, Fresh, FrontOf(b, v, h)) == Some(Machine(HeaderField, 0, h, Nameless(v)))
  {
    hide Run, Feed, Goes;
    var m0 := Machine(HeaderFieldStart, 0, "", Idle);
    GoesRuns(b, Fresh, b + CRLF, m0) by { BoundaryLine(b); }
    var m1 := m0.(state := HeaderValueStart);
    ColonAlone(b, m0);
    OneByteRun(b, m0, ':');
    var m2 := m0.(reader := Nameless(v));
    assert OnHeaderValue(Idle, v) == Nameless(v) by { assert "" + v == v; }
    GoesRuns(b, m1, v + CRLF, m2) by { ValueLine(b, m1, v); }
    RunsThen(b, m0, ":", m1, v + CRLF, m2);
    RunsThen(b, Fresh, b + CRLF, m0, ":" + (v + CRLF), m2);
    NameRuns(b, m2, h);
    RunsThen(b, Fresh, b + CRLF + (":" + (v + CRLF)), m2, h, m2.(state := HeaderField, held := h));
  }

  lemma GoesRuns(b: string, m: Machine, s: string, n: Machine)
    requires b != "" && Goes(b, m, s, n)
    ensures InRange(b, m) && Run(b, m, s) == Some(n)
  {
  }

  lemma ColonAlone(b: string, m: Machine)
    requires b != "" && m.state.HeaderFieldStart? && m.held == "" && m.reader == Idle
    ensures Feed(b, m, ':') == Some(m.(state := HeaderValueStart))
  {
    assert Idle.fieldText + "" == "";
  }

  lemma NameRuns(b: string, m: Machine, h: string)
    requires b != "" && m.state.HeaderFieldStart? && m.held == "" && NamePiece(h)
    ensures Run(b, m, h) == Some(m.(state := HeaderField, held := h))
  {
    hide Run, Feed, Goes;
    var m1 := m.(state := HeaderField, held := [h[0]]);
    assert NameChar(h[0]);
    FirstNameByte(b, m, h[0]);
    OneByteRun(b, m, h[0]);
    GoesRuns(b, m1, h[1..], m1.(held := [h[0]] + h[1..])) by { NameFrom(b, m1, h[1..]); }
    assert h == [h[0]] + h[1..];
    RunsThen(b, m, [h[0]], m1, h[1..], m1.(held := h));
  }

  lemma FirstNameByte(b: string, m: Machine, c: char)
    requires b != "" && m.state.HeaderFieldStart? && m.held == "" && NameChar(c)
    ensures Feed(b, m, c) == Some(m.(state := HeaderField, held := [c]))
  {
    assert "" + [c] == [c];
  }

  /** From inside a name to the end of the message. */
  lemma RestRuns(b: string, m: Machine, t: string, w: string, data: string)
    requires b != "" && CR !in b && m.state.HeaderField? && m.index == 0 && NamePiece(t) && Plain(w)
    requires !Occurs(data, Delimiter(b)) && m.reader.buffer == "" && m.reader.parts == []
    ensures var r := OnHeadersComplete(OnHeaderValue(OnHeaderField(m.reader, m.held + t), w));
            Run(b, m, RestOf(b, t, w, data)) == Some(Machine(End, |b|, "", OnDataEnd(r.(buffer := data))))
  {
    hide Run, Feed, Goes, OnHeaderField, OnHeaderValue, OnHeadersComplete, OnDataEnd, Occurs;
    var name := m.held + t;
    var m1 := m.(held := name);
    GoesRuns(b, m, t, m1) by { NameFrom(b, m, t); }
    var m2 := m.(state := HeaderValueStart, held := "", reader := OnHeaderField(m.reader, name));
    ColonEnds(b, m1);
    RunsThen(b, m, t, m1, ": ", m2);
    var m3 := m2.(state := HeaderFieldStart, reader := OnHeaderValue(m2.reader, w));
    GoesRuns(b, m2, w + CRLF, m3) by { ValueLine(b, m2, w); }
    RunsThen(b, m, t + ": ", m2, w + CRLF, m3);
    var m4 := m3.(state := PartDataStart);
    GoesRuns(b, m3, CRLF, m4) by { BlankLine(b, m3); }
    RunsThen(b, m, t + ": " + (w + CRLF), m3, CRLF, m4);
    assert AtDataStart(m4) by { HeadersKeepBuffer(m.reader, name, w); }
    var m5 := Machine(PartDataAlmostEnd, |b|, "", OnDataEnd(OnHeadersComplete(m4.reader).(buffer := data)));
    GoesRuns(b, m4, data + Delimiter(b), m5) by { DataGoes(b, m4, data); }
    RunsThen(b, m, t + ": " + (w + CRLF) + CRLF, m4, data + Delimiter(b), m5);
    GoesRuns(b, m5, "--" + "", m5.(state := End)) by { LastBoundary(b, m5, ""); }
    RunsThen(b, m, t + ": " + (w + CRLF) + CRLF + (data + Delimiter(b)), m5, "--" + "", m5.(state := End));
  }

  lemma ColonEnds(b: string, m: Machine)
    requires b != "" && m.state.HeaderField?
    ensures Run(b, m, ": ") == Some(m.(state := HeaderValueStart, held := "", reader := OnHeaderField(m.reader, m.held)))
  {
    hide OnHeaderField;
    var n := m.(state := HeaderValueStart, held := "", reader := OnHeaderField(m.reader, m.held));
    assert Feed(b, m, ':') == Some(n) && Feed(b, n, ' ') == Some(n);
    hide Feed;
    OneByteRun(b, m, ':');
    OneByteRun(b, n, ' ');
    RunsThen(b, m, ":", n, " ", n);
    assert ":" + " " == ": ";
  }

  lemma HeadersKeepBuffer(r: Reader, name: string, w: string)
    ensures OnHeaderValue(OnHeaderField(r, name), w).buffer == r.buffer
    ensures OnHeaderValue(OnHeaderField(r, name), w).parts == r.parts
  {
  }

  /** The filed headers, uncut and cut between `h` and `t`. */
  function WholeHeaders(v: string, h: string, t: string, w: string): Headers {
    map[Lower(h + t) := (h + t, v + w)]
  }

  function CutHeaders(v: string, h: string, t: string, w: string): Headers {
    AppendHeader(AppendHeader(Idle.(fieldText := h, valueText := v)).(fieldText := t, valueText := w)).headers
  }

  /**
   * A message whose first line has no name, for all boundaries, values, names and data: uncut, the next name gets both
   * values; with a buffer end inside that name its pieces are two headers. The parts always differ.
   */
  lemma NamelessLineShows(b: string, v: string, h: string, t: string, w: string, data: string)
    requires b != "" && CR !in b && Plain(v) && Plain(w) && NamePiece(h) && NamePiece(t) && !Occurs(data, Delimiter(b))
    ensures var front, rest := FrontOf(b, v, h), RestOf(b, t, w, data);
            var whole, cut := ExecuteAll(b, Fresh, [front + rest]), ExecuteAll(b, Fresh, [front, rest]);
            && whole.Some? && whole.value.reader.parts == [Part(WholeHeaders(v, h, t, w), data)]
            && cut.Some? && cut.value.reader.parts == [Part(CutHeaders(v, h, t, w), data)]
            && WholeHeaders(v, h, t, w) != CutHeaders(v, h, t, w)
  {
    hide Run, Feed, OnHeaderField, OnHeaderValue, OnHeadersComplete, Lower, FrontOf, RestOf, Occurs, NamePiece, Plain;
    var front, rest := FrontOf(b, v, h), RestOf(b, t, w, data);
    var m := Machine(HeaderField, 0, h, Nameless(v));
    FrontRuns(b, v, h);
    RestRuns(b, m, t, w, data);
    RunSplits(b, Fresh, front, rest);
    OneBuffer(b, Fresh, front + rest);
    var n := m.(held := "", reader := OnHeaderField(m.reader, h));
    PieceNotEmpty(h);
    PieceNotEmpty(t);
    assert Flush(m) == n;
    NamelessName(v, h);
    RestRuns(b, n, t, w, data);
    TwoBuffers(b, Fresh, front, rest);
    WholeReader(v, h, t, w, data);
    assert "" + t == t;
    CutReader(v, h, t, w, data);
    HeadersDiffer(v, h, t, w);
  }

  lemma PieceNotEmpty(s: string)
    requires NamePiece(s)
    ensures s != ""
  {
  }

  lemma NamelessName(v: string, h: string)
    ensures OnHeaderField(Nameless(v), h) == Idle.(phase := InValue, fieldText := h, valueText := v)
  {
    assert "" + h == h;
  }

  lemma OneBuffer(b: string, m: Machine, s: string)
    requires b != "" && InRange(b, m) && Run(b, m, s).Some?
    ensures ExecuteAll(b, m, [s]) == Some(Flush(Run(b, m, s).value))
  {
    hide Run, Flush;
    assert [s][1..] == [];
    FlushInRange(b, Run(b, m, s).value);
    assert ExecuteAll(b, Flush(Run(b, m, s).value), []) == Some(Flush(Run(b, m, s).value));
  }

  lemma TwoBuffers(b: string, m: Machine, s: string, t: string)
    requires b != "" && InRange(b, m) && Run(b, m, s).Some?
    requires InRange(b, Flush(Run(b, m, s).value)) && Run(b, Flush(Run(b, m, s).value), t).Some?
    ensures ExecuteAll(b, m, [s, t]) == Some(Flush(Run(b, Flush(Run(b, m, s).value), t).value))
  {
    hide Run, Flush;
    assert [s, t][1..] == [t];
    OneBuffer(b, Flush(Run(b, m, s).value), t);
  }

  lemma WholeReader(v: string, h: string, t: string, w: string, data: string)
    requires h != ""
    ensures var r := OnHeadersComplete(OnHeaderValue(OnHeaderField(Nameless(v), h + t), w));
            OnDataEnd(r.(buffer := data)).parts == [Part(WholeHeaders(v, h, t, w), data)]
  {
    hide Lower;
    NamelessName(v, h + t);
    var r := OnHeaderValue(OnHeaderField(Nameless(v), h + t), w);
    assert r == Idle.(phase := InValue, fieldText := h + t, valueText := v + w);
    assert h + t != "";
    assert OnHeadersComplete(r).headers == WholeHeaders(v, h, t, w);
  }

  lemma CutReader(v: string, h: string, t: string, w: string, data: string)
    requires h != "" && t != ""
    ensures var r := OnHeadersComplete(OnHeaderValue(OnHeaderField(OnHeaderField(Nameless(v), h), t), w));
            OnDataEnd(r.(buffer := data)).parts == [Part(CutHeaders(v, h, t, w), data)]
  {
    hide Lower;
    NamelessName(v, h);
    var filed := AppendHeader(Idle.(fieldText := h, valueText := v));
    assert filed.fieldText == "" && filed.valueText == "";
    assert "" + t == t && "" + w == w;
    var r := OnHeaderValue(OnHeaderField(OnHeaderField(Nameless(v), h), t), w);
    assert r == filed.(phase := InValue, fieldText := t, valueText := w);
    SamePhaseHeaders(filed.(fieldText := t, valueText := w), InValue);
    assert OnHeadersComplete(r).headers == CutHeaders(v, h, t, w);
  }

  lemma SamePhaseHeaders(r: Reader, phase: Phase)
    ensures AppendHeader(r.(phase := phase)).headers == AppendHeader(r).headers
  {
    hide Lower;
  }

  lemma HeadersDiffer(v: string, h: string, t: string, w: string)
    requires h != "" && t != ""
    ensures WholeHeaders(v, h, t, w) != CutHeaders(v, h, t, w)
  {
    hide Lower;
    assert Lower(h + t) in WholeHeaders(v, h, t, w);
    assert |Lower(h + t)| == |h| + |t| && |Lower(h)| == |h| && |Lower(t)| == |t|;
    assert Lower(h + t) !in CutHeaders(v, h, t, w);
  }
}
