/** Where a part's data ends: the parser against the plain definition of the first delimiter. */
module Delimiters {
  import opened Options
  import opened Upload
  import opened MultipartSpec

  function Delimiter(b: string): string { [CR, LF] + b }

  predicate HasSuffix(s: string, t: string) {
    |t| <= |s| && s[|s| - |t|..] == t
  }

  predicate OccursAt(s: string, t: string, k: nat) {
    k + |t| <= |s| && s[k..k + |t|] == t
  }

  ghost predicate Occurs(s: string, t: string) {
    exists k: nat :: OccursAt(s, t, k)
  }

  /** `raw` are the part's bytes so far: no delimiter in them, and all of them accounted for. */
  ghost predicate Scanning(b: string, m: Machine, raw: string) {
    && InRange(b, m)
    && (m.state.PartData? || m.state.PartDataAlmostBoundary? || m.state.PartDataBoundary?)
    && m.reader.buffer + m.held + Lookbehind(b, m) == raw
    && HasSuffix(raw, Lookbehind(b, m))
    && (forall k :: |Lookbehind(b, m)| < k < |Delimiter(b)| ==> !HasSuffix(raw, Delimiter(b)[..k]))
    && !Occurs(raw, Delimiter(b))
  }

  lemma LookbehindIsPrefix(b: string, m: Machine)
    requires InRange(b, m)
    ensures |Lookbehind(b, m)| < |Delimiter(b)| || b == ""
    ensures |Lookbehind(b, m)| <= |Delimiter(b)| && Lookbehind(b, m) == Delimiter(b)[..|Lookbehind(b, m)|]
  {
  }

  /** A text that ends in a prefix of the delimiter has its last CR where that prefix begins. */
  lemma LastCR(b: string, s: string, j: nat)
    requires CR !in b && 1 <= j <= |Delimiter(b)| && HasSuffix(s, Delimiter(b)[..j])
    ensures s[|s| - j] == CR
    ensures forall i :: |s| - j < i < |s| ==> s[i] != CR
  {
    var d := Delimiter(b);
    assert s[|s| - j] == s[|s| - j..][0] == d[..j][0];
    forall i | |s| - j < i < |s| ensures s[i] != CR {
      assert s[i] == s[|s| - j..][i - (|s| - j)] == d[i - (|s| - j)];
    }
  }

  /** So two different prefixes of the delimiter cannot both end the same text. */
  lemma OnePrefix(b: string, s: string, j: nat, k: nat)
    requires CR !in b && 1 <= j <= |Delimiter(b)| && 1 <= k <= |Delimiter(b)|
    requires HasSuffix(s, Delimiter(b)[..j]) && HasSuffix(s, Delimiter(b)[..k])
    ensures j == k
  {
    LastCR(b, s, j);
    LastCR(b, s, k);
  }

  lemma SuffixGrows(s: string, c: char, t: string, k: nat)
    requires 1 <= k <= |t|
    ensures HasSuffix(s + [c], t[..k]) <==> HasSuffix(s, t[..k - 1]) && c == t[k - 1]
  {
    var p := t[..k];
    assert p == t[..k - 1] + [t[k - 1]];
    if k <= |s| + 1 {
      assert (s + [c])[|s| + 1 - k..] == s[|s| + 1 - k..] + [c];
    }
  }

  lemma OccursGrows(s: string, c: char, t: string)
    requires t != ""
    ensures Occurs(s + [c], t) <==> Occurs(s, t) || HasSuffix(s + [c], t)
  {
    var u := s + [c];
    forall k: nat ensures OccursAt(u, t, k) <==> OccursAt(s, t, k) || (k + |t| == |u| && HasSuffix(u, t)) {
      if k + |t| <= |s| { assert u[k..k + |t|] == s[k..k + |t|]; }
    }
    if HasSuffix(u, t) { assert OccursAt(u, t, |u| - |t|); }
  }

  /** While the text ends in the prefix of length `j`, the next longer prefixes are ruled out. */
  lemma NextPrefix(b: string, raw: string, j: nat, c: char, k: nat)
    requires CR !in b && j < |Delimiter(b)| && 1 <= k <= |Delimiter(b)|
    requires HasSuffix(raw, Delimiter(b)[..j])
    requires forall k :: j < k < |Delimiter(b)| ==> !HasSuffix(raw, Delimiter(b)[..k])
    ensures HasSuffix(raw + [c], Delimiter(b)[..k]) <==>
            c == Delimiter(b)[k - 1] && (k == 1 || k == j + 1)
  {
    var d := Delimiter(b);
    SuffixGrows(raw, c, d, k);
    if k == 1 {
      assert d[..0] == "" && HasSuffix(raw, d[..0]);
    } else if HasSuffix(raw, d[..k - 1]) && k - 1 != j {
      if j >= 1 { OnePrefix(b, raw, j, k - 1); }
    }
  }

  lemma DataByteScans(b: string, m: Machine, raw: string, c: char)
    requires CR !in b && b != "" && m.state.PartData?
    requires InRange(b, m) && m.reader.buffer + m.held == raw
    requires !Occurs(raw + [c], Delimiter(b))
    requires forall k :: 1 <= k < |Delimiter(b)| ==>
               (HasSuffix(raw + [c], Delimiter(b)[..k]) <==> k == 1 && c == CR)
    ensures Scanning(b, DataByte(m, c), raw + [c])
  {
    var m' := DataByte(m, c);
    if c == CR {
      assert Delimiter(b)[..1] == [CR];
      assert HasSuffix(raw + [c], [CR]);
      assert m'.reader.buffer + m'.held + [CR] == raw + [c];
    } else {
      assert m'.reader.buffer + m'.held + "" == raw + [c];
      assert (raw + [c])[|raw| + 1..] == "";
    }
  }

  /** One byte of part data: the part ends if it completes the delimiter, otherwise the scan goes on. */
  lemma ScanStep(b: string, m: Machine, raw: string, c: char)
    requires CR !in b && b != "" && Scanning(b, m, raw)
    ensures Feed(b, m, c).Some?
    ensures HasSuffix(raw + [c], Delimiter(b)) ==>
              var m' := Feed(b, m, c).value;
              m'.state.PartDataAlmostEnd? && m'.held == ""
              && m'.reader == OnDataEnd(m.reader.(buffer := (raw + [c])[..|raw| + 1 - |Delimiter(b)|]))
    ensures !HasSuffix(raw + [c], Delimiter(b)) ==>
              Scanning(b, Feed(b, m, c).value, raw + [c])
              && Feed(b, m, c).value.reader == m.reader.(buffer := Feed(b, m, c).value.reader.buffer)
  {
    hide OnDataEnd;
    var d := Delimiter(b);
    var j := |Lookbehind(b, m)|;
    LookbehindIsPrefix(b, m);
    forall k | 1 <= k <= |d|
      ensures HasSuffix(raw + [c], d[..k]) <==> c == d[k - 1] && (k == 1 || k == j + 1)
    {
      NextPrefix(b, raw, j, c, k);
    }
    assert d[..|d|] == d;
    OccursGrows(raw, c, d);
    if c == d[j] && j >= 1 {
      Matches(b, m, raw, c);
    } else {
      Mismatches(b, m, raw, c);
    }
  }

  lemma Matches(b: string, m: Machine, raw: string, c: char)
    requires CR !in b && b != "" && Scanning(b, m, raw) && 1 <= |Lookbehind(b, m)| < |Delimiter(b)|
    requires c == Delimiter(b)[|Lookbehind(b, m)|]
    requires forall k :: 1 <= k <= |Delimiter(b)| ==>
               (HasSuffix(raw + [c], Delimiter(b)[..k]) <==>
                c == Delimiter(b)[k - 1] && (k == 1 || k == |Lookbehind(b, m)| + 1))
    requires Occurs(raw + [c], Delimiter(b)) <==> HasSuffix(raw + [c], Delimiter(b))
    ensures Feed(b, m, c).Some?
    ensures HasSuffix(raw + [c], Delimiter(b)) ==>
              var m' := Feed(b, m, c).value;
              m'.state.PartDataAlmostEnd? && m'.held == ""
              && m'.reader == OnDataEnd(m.reader.(buffer := (raw + [c])[..|raw| + 1 - |Delimiter(b)|]))
    ensures !HasSuffix(raw + [c], Delimiter(b)) ==>
              Scanning(b, Feed(b, m, c).value, raw + [c])
              && Feed(b, m, c).value.reader == m.reader.(buffer := Feed(b, m, c).value.reader.buffer)
  {
    var j := |Lookbehind(b, m)|;
    assert j >= 2 ==> Delimiter(b)[j] == b[j - 2];
    assert Delimiter(b)[..|Delimiter(b)|] == Delimiter(b);
    if j + 1 == |Delimiter(b)| {
      Completes(b, m, raw, c);
    } else {
      Extends(b, m, raw, c);
    }
  }

  lemma Completes(b: string, m: Machine, raw: string, c: char)
    requires b != "" && Scanning(b, m, raw) && |Lookbehind(b, m)| + 1 == |Delimiter(b)|
    requires c == Delimiter(b)[|Lookbehind(b, m)|]
    ensures var m' := Feed(b, m, c).value;
            m'.state.PartDataAlmostEnd? && m'.held == ""
            && m'.reader == OnDataEnd(m.reader.(buffer := (raw + [c])[..|raw| + 1 - |Delimiter(b)|]))
  {
    hide OnDataEnd, HasSuffix, Occurs;
    assert raw == m.reader.buffer + Lookbehind(b, m);
    assert (raw + [c])[..|raw| + 1 - |Delimiter(b)|] == m.reader.buffer;
  }

  lemma Extends(b: string, m: Machine, raw: string, c: char)
    requires CR !in b && b != "" && Scanning(b, m, raw) && 1 <= |Lookbehind(b, m)| < |Delimiter(b)| - 1
    requires c == Delimiter(b)[|Lookbehind(b, m)|] != CR
    requires forall k :: 1 <= k <= |Delimiter(b)| ==>
               (HasSuffix(raw + [c], Delimiter(b)[..k]) <==>
                c == Delimiter(b)[k - 1] && (k == 1 || k == |Lookbehind(b, m)| + 1))
    requires !Occurs(raw + [c], Delimiter(b))
    ensures Feed(b, m, c).Some? && Scanning(b, Feed(b, m, c).value, raw + [c])
    ensures Feed(b, m, c).value.reader == m.reader
  {
    hide Occurs, HasSuffix;
    var d := Delimiter(b);
    var back := Lookbehind(b, m);
    var m' := Feed(b, m, c).value;
    assert Lookbehind(b, m') == back + [c] == d[..|back| + 1] by {
      if |back| >= 2 { assert b[..m.index + 1] == b[..m.index] + [c]; }
    }
    assert m.reader.buffer + m.held + (back + [c]) == raw + [c];
  }

  lemma Mismatches(b: string, m: Machine, raw: string, c: char)
    requires CR !in b && b != "" && Scanning(b, m, raw) && |Lookbehind(b, m)| < |Delimiter(b)|
    requires |Lookbehind(b, m)| >= 1 ==> c != Delimiter(b)[|Lookbehind(b, m)|]
    requires forall k :: 1 <= k <= |Delimiter(b)| ==>
               (HasSuffix(raw + [c], Delimiter(b)[..k]) <==>
                c == Delimiter(b)[k - 1] && (k == 1 || k == |Lookbehind(b, m)| + 1))
    requires Occurs(raw + [c], Delimiter(b)) <==> HasSuffix(raw + [c], Delimiter(b))
    ensures Feed(b, m, c).Some? && !HasSuffix(raw + [c], Delimiter(b))
    ensures Scanning(b, Feed(b, m, c).value, raw + [c])
    ensures Feed(b, m, c).value.reader == m.reader.(buffer := Feed(b, m, c).value.reader.buffer)
  {
    hide Feed, Scanning, Occurs, HasSuffix, OnData, DataByte;
    var d := Delimiter(b);
    assert d[..|d|] == d && |d| >= 3;
    ScanInRange(b, m, raw);
    var n := if m.state.PartData? then m else Release(b, m);
    MismatchFeeds(b, m, raw, c);
    DataByteScans(b, n, raw, c);
  }

  lemma ScanInRange(b: string, m: Machine, raw: string)
    requires Scanning(b, m, raw)
    ensures InRange(b, m)
  {
  }

  /** A byte that does not continue the delimiter is data behind the released lookbehind. */
  lemma MismatchFeeds(b: string, m: Machine, raw: string, c: char)
    requires b != "" && Scanning(b, m, raw)
    requires |Lookbehind(b, m)| >= 1 ==> c != Delimiter(b)[|Lookbehind(b, m)|]
    ensures var n := if m.state.PartData? then m else Release(b, m);
            && InRange(b, n) && n.state.PartData? && n.reader.buffer + n.held == raw
            && Feed(b, m, c) == Some(DataByte(n, c))
            && DataByte(n, c).reader == m.reader.(buffer := DataByte(n, c).reader.buffer)
  {
    hide Occurs, HasSuffix;
  }

  /** A fresh scan: the state the headers of a part end in. */
  predicate AtDataStart(m: Machine) {
    m.state.PartDataStart? && m.held == "" && m.reader.buffer == ""
  }

  /** The state of a scan that has seen nothing yet. */
  function Opened(m: Machine): Machine {
    m.(state := PartData, reader := OnHeadersComplete(m.reader))
  }

  lemma OpenedFeeds(b: string, m: Machine)
    requires AtDataStart(m) && b != ""
    ensures InRange(b, Opened(m))
    ensures forall c :: Feed(b, m, c) == Feed(b, Opened(m), c)
  {
    hide OnHeadersComplete, OnData;
    assert Opened(m) == m.(state := PartData, reader := OnHeadersComplete(m.reader));
  }

  lemma OpenedIsFresh(b: string, m: Machine)
    requires AtDataStart(m) && b != ""
    ensures Scanning(b, Opened(m), "")
  {
    assert !Occurs("", Delimiter(b));
    assert Opened(m).reader.buffer == "";
  }

  lemma {:induction false} ScanRun(b: string, m: Machine, raw: string, s: string)
    requires CR !in b && b != "" && Scanning(b, m, raw)
    requires !Occurs(raw + s, Delimiter(b))
    ensures Run(b, m, s).Some? && Scanning(b, Run(b, m, s).value, raw + s)
    ensures Run(b, m, s).value.reader == m.reader.(buffer := Run(b, m, s).value.reader.buffer)
    decreases |s|
  {
    hide Feed;
    if s == "" {
      assert raw + s == raw;
    } else {
      var next := raw + [s[0]];
      assert raw + s == next + s[1..];
      NotInPrefix(next, s[1..], Delimiter(b));
      OccursGrows(raw, s[0], Delimiter(b));
      ScanStep(b, m, raw, s[0]);
      ScanRun(b, Feed(b, m, s[0]).value, next, s[1..]);
    }
  }

  lemma NotInPrefix(s: string, t: string, d: string)
    requires !Occurs(s + t, d)
    ensures !Occurs(s, d)
  {
    forall k: nat ensures OccursAt(s, d, k) ==> OccursAt(s + t, d, k) {
      if k + |d| <= |s| { assert (s + t)[k..k + |d|] == s[k..k + |d|]; }
    }
  }

  predicate FirstAt(s: string, d: string, k: nat) {
    OccursAt(s, d, k) && forall i: nat | i < k :: !OccursAt(s, d, i)
  }

  /**
   * The part ends exactly at the first delimiter: with it the delivered data are the bytes before
   * it, although the matcher restarts without a failure function.
   */
  lemma PartEndsAtFirstDelimiter(b: string, m: Machine, s: string, k: nat)
    requires CR !in b && b != "" && AtDataStart(m) && FirstAt(s, Delimiter(b), k)
    ensures var end := k + |Delimiter(b)|;
            && Run(b, m, s[..end]).Some?
            && Run(b, m, s[..end]).value.state.PartDataAlmostEnd?
            && Run(b, m, s[..end]).value.held == ""
            && Run(b, m, s[..end]).value.reader == OnDataEnd(OnHeadersComplete(m.reader).(buffer := s[..k]))
  {
    hide Feed, Scanning, OnDataEnd;
    var d := Delimiter(b);
    var end := k + |d|;
    var front := s[..end - 1];
    forall i: nat ensures OccursAt(front, d, i) ==> i < k && OccursAt(s, d, i) {
      if i + |d| <= |front| { assert s[i..i + |d|] == front[i..i + |d|]; }
    }
    OpenedFeeds(b, m);
    OpenedIsFresh(b, m);
    assert "" + front == front;
    ScanRun(b, Opened(m), "", front);
    var n := Run(b, Opened(m), front).value;
    assert front + [s[end - 1]] == s[..end];
    assert s[..end][end - |d|..] == s[k..end] == d;
    hide Occurs, OccursAt, FirstAt, Run;
    ScanStep(b, n, front, s[end - 1]);
    assert s[..end][..k] == s[..k];
    StartRun(b, m, s[..end]);
    RunSplits(b, Opened(m), front, [s[end - 1]]);
    OneByteRun(b, n, s[end - 1]);
  }

  lemma OneByteRun(b: string, m: Machine, c: char)
    requires b != "" && InRange(b, m)
    ensures Run(b, m, [c]) == Feed(b, m, c)
  {
    hide Feed;
    assert [c][1..] == "";
    var next := Feed(b, m, c);
    if next.Some? { assert Run(b, next.value, "") == next; }
  }

  lemma StartRun(b: string, m: Machine, s: string)
    requires b != "" && AtDataStart(m) && s != ""
    ensures Run(b, m, s) == Run(b, Opened(m), s)
  {
    hide Feed;
    OpenedFeeds(b, m);
    OpenedIsFresh(b, m);
  }

  /** Without a delimiter the part never ends, and no byte is lost: delivered, held or in the lookbehind. */
  lemma NoDelimiterNoEnd(b: string, m: Machine, s: string)
    requires CR !in b && b != "" && AtDataStart(m) && s != "" && !Occurs(s, Delimiter(b))
    ensures Run(b, m, s).Some?
    ensures var n := Run(b, m, s).value;
            && n.reader.parts == m.reader.parts
            && n.reader.buffer + n.held + Lookbehind(b, n) == s
  {
    hide Feed, OnHeadersComplete;
    OpenedFeeds(b, m);
    OpenedIsFresh(b, m);
    assert "" + s == s;
    ScanRun(b, Opened(m), "", s);
    StartRun(b, m, s);
    KeepsParts(m.reader);
  }

  lemma KeepsParts(r: Reader)
    ensures OnHeadersComplete(r).parts == r.parts
  {
  }
}

/** How the stream is cut into buffers does not matter. */
module Fragments {
  import opened Options
  import opened Buffers
  import opened Upload
  import opened MultipartSpec
  import opened Delimiters

  // ----- Part data and events, for every input -----

  function DataSoFar(m: Machine): string {
    m.reader.buffer + if m.state.PartData? then m.held else ""
  }

  function PartsData(parts: seq<Part>): seq<string> {
    seq(|parts|, i requires 0 <= i < |parts| => parts[i].data)
  }

  /** Equal up to headers: the same control state, the same finished parts, the same data received. */
  predicate SameData(m: Machine, n: Machine) {
    && m.state == n.state && m.index == n.index
    && DataSoFar(m) == DataSoFar(n)
    && PartsData(m.reader.parts) == PartsData(n.reader.parts)
  }

  lemma HeadersKeepData(r: Reader, at: string)
    ensures OnHeaderField(r, at).buffer == OnHeaderValue(r, at).buffer == OnHeadersComplete(r).buffer == r.buffer
    ensures OnHeaderField(r, at).parts == OnHeaderValue(r, at).parts == OnHeadersComplete(r).parts == r.parts
  {
  }

  lemma FlushKeepsData(b: string, m: Machine)
    requires InRange(b, m)
    ensures SameData(m, Flush(m)) && InRange(b, Flush(m))
  {
    HeadersKeepData(m.reader, m.held);
  }

  lemma FeedSameData(b: string, m: Machine, n: Machine, c: char)
    requires b != "" && InRange(b, m) && InRange(b, n) && SameData(m, n)
    ensures Feed(b, m, c).Some? <==> Feed(b, n, c).Some?
    ensures Feed(b, m, c).Some? ==> SameData(Feed(b, m, c).value, Feed(b, n, c).value)
  {
    hide OnHeaderField, OnHeaderValue, OnHeadersComplete;
    HeadersKeepData(m.reader, m.held);
    HeadersKeepData(n.reader, n.held);
    HeadersKeepData(m.reader, "");
    HeadersKeepData(n.reader, "");
    if m.state.PartDataStart? || m.state.PartData? || m.state.PartDataAlmostBoundary? || m.state.PartDataBoundary? {
      DataFeedSameData(b, m, n, c);
    }
  }

  lemma DataByteSameData(m: Machine, n: Machine, c: char)
    requires m.index == n.index && PartsData(m.reader.parts) == PartsData(n.reader.parts)
    requires m.reader.buffer + m.held == n.reader.buffer + n.held
    ensures SameData(DataByte(m, c), DataByte(n, c))
  {
    assert m.reader.buffer + (m.held + [c]) == m.reader.buffer + m.held + [c];
    assert n.reader.buffer + (n.held + [c]) == n.reader.buffer + n.held + [c];
    assert forall s: string :: s + "" == s;
  }

  lemma DataFeedSameData(b: string, m: Machine, n: Machine, c: char)
    requires b != "" && InRange(b, m) && InRange(b, n) && SameData(m, n)
    requires m.state.PartDataStart? || m.state.PartData? || m.state.PartDataAlmostBoundary? || m.state.PartDataBoundary?
    ensures Feed(b, m, c).Some? && Feed(b, n, c).Some?
    ensures SameData(Feed(b, m, c).value, Feed(b, n, c).value)
  {
    hide OnHeadersComplete, DataByte, PartsData, Flush, OnHeaderField, OnHeaderValue;
    assert forall s: string :: s + "" == s;
    HeadersKeepData(m.reader, "");
    HeadersKeepData(n.reader, "");
    match m.state
    case PartDataStart =>
      DataByteSameData(m.(held := "", reader := OnHeadersComplete(m.reader)),
                       n.(held := "", reader := OnHeadersComplete(n.reader)), c);
    case PartData => DataByteSameData(m, n, c);
    case PartDataAlmostBoundary =>
      DataByteSameData(Release(b, m), Release(b, n), c);
    case PartDataBoundary =>
      DataByteSameData(Release(b, m), Release(b, n), c);
      PartsDataGrows(m.reader.parts, Part(m.reader.headers, m.reader.buffer));
      PartsDataGrows(n.reader.parts, Part(n.reader.headers, n.reader.buffer));
  }

  lemma PartsDataGrows(parts: seq<Part>, p: Part)
    ensures PartsData(parts + [p]) == PartsData(parts) + [p.data]
  {
  }

  lemma {:induction false} RunSameData(b: string, m: Machine, n: Machine, s: string)
    requires b != "" && InRange(b, m) && InRange(b, n) && SameData(m, n)
    ensures Run(b, m, s).Some? <==> Run(b, n, s).Some?
    ensures Run(b, m, s).Some? ==> SameData(Run(b, m, s).value, Run(b, n, s).value)
    decreases |s|
  {
    hide Feed, SameData;
    if s != "" {
      FeedSameData(b, m, n, s[0]);
      var m', n' := Feed(b, m, s[0]), Feed(b, n, s[0]);
      if m'.Some? { RunSameData(b, m'.value, n'.value, s[1..]); }
    }
  }

  /**
   * For every input and every way to cut it: the parser accepts or refuses alike, ends in the same
   * state, and has delivered the same data for the same parts.
   */
  lemma {:induction false} CutsSameData(b: string, m: Machine, n: Machine, bufs: seq<string>)
    requires b != "" && InRange(b, m) && InRange(b, n) && SameData(m, n)
    ensures ExecuteAll(b, m, bufs).Some? <==> Run(b, n, Concat(bufs)).Some?
    ensures ExecuteAll(b, m, bufs).Some? ==> SameData(ExecuteAll(b, m, bufs).value, Run(b, n, Concat(bufs)).value)
    decreases |bufs|
  {
    hide Feed, SameData, Run, Flush;
    if bufs == [] {
      assert Run(b, n, "") == Some(n) by { RunNothing(b, n); }
    } else {
      RunSplits(b, n, bufs[0], Concat(bufs[1..]));
      RunSameData(b, m, n, bufs[0]);
      var m', n' := Run(b, m, bufs[0]), Run(b, n, bufs[0]);
      if m'.Some? {
        FlushKeepsData(b, m'.value);
        SameDataTransitive(Flush(m'.value), m'.value, n'.value);
        CutsSameData(b, Flush(m'.value), n'.value, bufs[1..]);
      }
    }
  }

  lemma RunNothing(b: string, m: Machine)
    requires b != "" && InRange(b, m)
    ensures Run(b, m, "") == Some(m)
  {
  }

  lemma SameDataTransitive(m: Machine, n: Machine, o: Machine)
    requires SameData(n, m) && SameData(n, o)
    ensures SameData(m, o)
  {
  }

  // ----- Headers too, when every header line is a name, a colon and a value -----

  /** A line end inside a name and a colon without a name are what header lines do not have. */
  predicate TidyByte(state: State, c: char) {
    && (state.HeaderField? ==> c != CR)
    && (state.HeaderFieldStart? ==> c != ':')
  }

  predicate Tidy(b: string, m: Machine, s: string)
    requires b != "" && InRange(b, m)
    decreases |s|
  {
    s == "" ||
    (TidyByte(m.state, s[0]) && (Feed(b, m, s[0]).Some? ==> Tidy(b, Feed(b, m, s[0]).value, s[1..])))
  }

  /** What the reader looks like while header lines are tidy: a value always has a field. */
  predicate Good(m: Machine) {
    && (m.reader.phase.InValue? ==> m.reader.fieldText != "")
    && (m.state.HeaderField? ==> m.held != "" || (m.reader.fieldText != "" && !m.reader.phase.InValue?))
    && (m.state.HeaderValueStart? || m.state.HeaderValue? ==> m.reader.fieldText != "")
    && (m.held != "" ==> m.state.HeaderField? || m.state.HeaderValue? || m.state.PartData?)
  }

  lemma FieldTwice(r: Reader, a: string, c: string)
    requires a != "" && (r.phase.InValue? ==> r.fieldText != "")
    ensures OnHeaderField(OnHeaderField(r, a), c) == OnHeaderField(r, a + c)
    ensures OnHeaderField(r, a).fieldText != "" && !OnHeaderField(r, a).phase.InValue?
  {
    hide AppendHeader;
    var s := if r.phase.InValue? && r.fieldText != "" then AppendHeader(r).(phase := InField) else r;
    assert s.fieldText + a + c == s.fieldText + (a + c);
  }

  lemma ValueTwice(r: Reader, a: string, c: string)
    ensures OnHeaderValue(OnHeaderValue(r, a), c) == OnHeaderValue(r, a + c)
    ensures OnHeaderValue(r, a).fieldText == r.fieldText
  {
    var v := if r.phase.InField? && r.valueText != "" then "" else r.valueText;
    assert v + a + c == v + (a + c);
  }

  lemma DataTwice(r: Reader, a: string, c: string)
    ensures OnData(OnData(r, a), c) == OnData(r, a + c)
  {
    assert r.buffer + a + c == r.buffer + (a + c);
  }

  lemma CompleteIsGood(r: Reader)
    requires r.phase.InValue? ==> r.fieldText != ""
    ensures !OnHeadersComplete(r).phase.InValue?
  {
  }

  lemma FlushGood(m: Machine)
    requires Good(m)
    ensures Good(Flush(m)) && Flush(Flush(m)) == Flush(m)
  {
    hide AppendHeader;
    if m.held != "" && m.state.HeaderField? { FieldTwice(m.reader, m.held, ""); }
    ValueTwice(m.reader, m.held, "");
  }

  /** Part of a name is held while a value waits that has no name: the line before had an empty one. */
  predicate NameAfterNameless(m: Machine) {
    m.held != "" && m.state.HeaderField? && m.reader.phase.InValue? && m.reader.fieldText == ""
  }

  /**
   * A buffer end before the next byte shows exactly inside a name, and there exactly if the line ends without a colon
   * or the line before had no name.
   */
  lemma BufferEndShowsExactly(b: string, m: Machine, c: char)
    requires b != "" && InRange(b, m)
    ensures InRange(b, Flush(m))
    ensures Feed(b, m, c).Some? <==> Feed(b, Flush(m), c).Some?
    ensures Feed(b, m, c).Some? ==>
              (Flush(Feed(b, Flush(m), c).value) == Flush(Feed(b, m, c).value)
               <==> !(m.held != "" && m.state.HeaderField? && c == CR) && !NameAfterNameless(m))
  {
    hide AppendHeader;
    var r, h := m.reader, m.held;
    if h != "" {
      assert h + "" == h && "" + [c] == [c];
      if NameAfterNameless(m) {
        NamelessFiles(r, h, "");
        NamelessFiles(r, h, [c]);
        assert r.fieldText + h == h && r.fieldText + (h + [c]) == h + [c];
      } else if m.state.HeaderField? {
        FieldTwice(r, h, "");
        FieldTwice(r, h, [c]);
      } else if m.state.HeaderValue? {
        ValueTwice(r, h, "");
        ValueTwice(r, h, [c]);
      } else {
        DataTwice(r, h, "");
        DataTwice(r, h, [c]);
      }
    }
  }

  /** The first piece of the name takes the waiting value, and the second piece files it. */
  lemma NamelessFiles(r: Reader, a: string, c: string)
    requires a != "" && r.phase.InValue? && r.fieldText == ""
    ensures OnHeaderField(r, a) == r.(fieldText := a)
    ensures OnHeaderField(OnHeaderField(r, a), c).phase.InField? && OnHeaderField(r, a + c).phase.InValue?
  {
    hide AppendHeader;
    assert "" + a == a;
  }

  lemma FeedGood(b: string, m: Machine, c: char)
    requires b != "" && InRange(b, m) && Good(m) && TidyByte(m.state, c)
    ensures Feed(b, m, c).Some? ==> Good(Feed(b, m, c).value)
  {
    hide AppendHeader, OnHeadersComplete, FieldByte, ValueByte, OnHeaderField, OnHeaderValue;
    CompleteIsGood(m.reader);
    if m.state.HeaderField? || m.state.HeaderFieldStart? { FieldByteGood(m, c); }
    if m.state.HeaderValue? || m.state.HeaderValueStart? { ValueByteGood(m, c); }
  }

  lemma FieldByteGood(m: Machine, c: char)
    requires Good(m) && (m.state.HeaderField? || m.state.HeaderFieldStart?) && TidyByte(m.state, c)
    ensures var start := if m.state.HeaderField? then m else m.(state := HeaderField, held := "");
            FieldByte(start, c).Some? ==> Good(FieldByte(start, c).value)
  {
    hide AppendHeader;
    if m.held != "" { FieldTwice(m.reader, m.held, ""); } else { assert m.reader.fieldText + "" == m.reader.fieldText; }
  }

  lemma ValueByteGood(m: Machine, c: char)
    requires Good(m) && (m.state.HeaderValue? || m.state.HeaderValueStart?)
    ensures var start := if m.state.HeaderValue? then m else m.(state := HeaderValue, held := "");
            Good(ValueByte(start, c))
  {
    ValueTwice(m.reader, m.held, "");
    ValueTwice(m.reader, "", "");
  }

  /** Equal once everything held is handed out. */
  predicate Alike(m: Machine, n: Machine) {
    Good(m) && Good(n) && Flush(m) == Flush(n)
  }

  lemma FeedAlike(b: string, m: Machine, n: Machine, c: char)
    requires b != "" && InRange(b, m) && InRange(b, n) && Alike(m, n) && TidyByte(m.state, c)
    ensures Feed(b, m, c).Some? <==> Feed(b, n, c).Some?
    ensures Feed(b, m, c).Some? ==> Alike(Feed(b, m, c).value, Feed(b, n, c).value)
  {
    hide Feed;
    BufferEndShowsExactly(b, m, c);
    BufferEndShowsExactly(b, n, c);
    FeedGood(b, m, c);
    FeedGood(b, n, c);
  }

  lemma {:induction false} RunAlike(b: string, m: Machine, n: Machine, s: string)
    requires b != "" && InRange(b, m) && InRange(b, n) && Alike(m, n) && Tidy(b, n, s)
    ensures Run(b, m, s).Some? <==> Run(b, n, s).Some?
    ensures Run(b, m, s).Some? ==> Alike(Run(b, m, s).value, Run(b, n, s).value)
    decreases |s|
  {
    hide Feed, Good;
    if s != "" {
      FeedAlike(b, m, n, s[0]);
      var m', n' := Feed(b, m, s[0]), Feed(b, n, s[0]);
      if m'.Some? { RunAlike(b, m'.value, n'.value, s[1..]); }
    }
  }

  lemma {:induction false} TidySplits(b: string, m: Machine, s: string, t: string)
    requires b != "" && InRange(b, m)
    ensures Tidy(b, m, s + t) <==> Tidy(b, m, s) && (Run(b, m, s).Some? ==> Tidy(b, Run(b, m, s).value, t))
    decreases |s|
  {
    hide Feed, TidyByte;
    if s == "" {
      assert s + t == t;
    } else {
      assert (s + t)[1..] == s[1..] + t;
      var next := Feed(b, m, s[0]);
      if next.Some? { TidySplits(b, next.value, s[1..], t); }
    }
  }

  lemma FlushInRange(b: string, m: Machine)
    requires InRange(b, m)
    ensures InRange(b, Flush(m)) && Flush(m).held == ""
  {
  }

  lemma {:induction false} NothingHeld(b: string, m: Machine, bufs: seq<string>)
    requires b != "" && InRange(b, m) && m.held == ""
    ensures ExecuteAll(b, m, bufs).Some? ==> ExecuteAll(b, m, bufs).value.held == ""
    decreases |bufs|
  {
    hide Run, Flush;
    if bufs != [] {
      var done := Run(b, m, bufs[0]);
      if done.Some? {
        FlushInRange(b, done.value);
        NothingHeld(b, Flush(done.value), bufs[1..]);
      }
    }
  }

  /** Any two cuts of a stream with tidy header lines leave the very same state and connection. */
  lemma CutsAgree(b: string, m: Machine, bufs: seq<string>, others: seq<string>)
    requires b != "" && InRange(b, m) && Good(m) && m.held == ""
    requires Concat(bufs) == Concat(others) && Tidy(b, m, Concat(bufs))
    ensures ExecuteAll(b, m, bufs) == ExecuteAll(b, m, others)
  {
    hide Tidy, Run, ExecuteAll;
    CutsAlike(b, m, m, bufs);
    CutsAlike(b, m, m, others);
    NothingHeld(b, m, bufs);
    NothingHeld(b, m, others);
  }

  /** With tidy header lines, any cut gives everything the uncut stream gives, headers included. */
  lemma {:induction false} CutsAlike(b: string, m: Machine, n: Machine, bufs: seq<string>)
    requires b != "" && InRange(b, m) && InRange(b, n) && Alike(m, n) && Tidy(b, n, Concat(bufs))
    ensures ExecuteAll(b, m, bufs).Some? <==> Run(b, n, Concat(bufs)).Some?
    ensures ExecuteAll(b, m, bufs).Some? ==> Alike(ExecuteAll(b, m, bufs).value, Run(b, n, Concat(bufs)).value)
    decreases |bufs|
  {
    hide Feed, Good, Run, Flush, Tidy;
    if bufs == [] {
      RunNothing(b, n);
    } else {
      RunSplits(b, n, bufs[0], Concat(bufs[1..]));
      TidySplits(b, n, bufs[0], Concat(bufs[1..]));
      RunAlike(b, m, n, bufs[0]);
      var m', n' := Run(b, m, bufs[0]), Run(b, n, bufs[0]);
      if m'.Some? {
        FlushGood(m'.value);
        FlushInRange(b, m'.value);
        CutsAlike(b, Flush(m'.value), n'.value, bufs[1..]);
      }
    }
  }
}

/** Writing parts and reading them back. */
module MultipartRoundTrip {
  import opened Options
  import opened Buffers
  import opened Upload
  import opened MultipartSpec
  import opened Delimiters
  import opened Fragments

  /** `pad` is what stands between the colon and the value. */
  datatype Header = Header(name: string, pad: string, value: string)
  datatype Item = Item(headers: seq<Header>, data: string)

  /** Letters of either case and the hyphen. */
  predicate NameChar(c: char) {
    var i := c as int;
    65 <= i <= 90 || 97 <= i <= 122 || i == 45
  }

  predicate WritableHeader(h: Header) {
    && h.name != "" && (forall i :: 0 <= i < |h.name| ==> NameChar(h.name[i]))
    && (forall i :: 0 <= i < |h.pad| ==> h.pad[i] == ' ')
    && '\r' !in h.value && (h.value != "" ==> h.value[0] != ' ')
  }

  predicate DistinctNames(hs: seq<Header>) {
    forall i, j :: 0 <= i < j < |hs| ==> Lower(hs[i].name) != Lower(hs[j].name)
  }

  ghost predicate Writable(b: string, item: Item) {
    && (forall h :: h in item.headers ==> WritableHeader(h))
    && !Occurs(item.data, CRLF + b)
  }

  const CRLF := "\r\n"

  function WriteHeader(h: Header): string { h.name + ":" + h.pad + (h.value + CRLF) }

  function WriteHeaders(hs: seq<Header>): string {
    if hs == [] then "" else WriteHeaders(hs[..|hs| - 1]) + WriteHeader(hs[|hs| - 1])
  }

  function WriteItem(b: string, item: Item): string {
    WriteHeaders(item.headers) + CRLF + (item.data + (CRLF + b))
  }

  /** Items from the second boundary line on; the last boundary is followed by two hyphens. */
  function WriteItems(b: string, items: seq<Item>, epilogue: string): string
    requires items != []
  {
    WriteItem(b, items[0]) + if |items| == 1 then "--" + epilogue else CRLF + WriteItems(b, items[1..], epilogue)
  }

  function WriteMessage(b: string, items: seq<Item>, epilogue: string): string
    requires items != []
  {
    b + CRLF + WriteItems(b, items, epilogue)
  }

  /**
   * The headers as they are filed, with the name that is left over. A name that was filed before, ignoring case, takes the
   * new value and stays in front of the next name.
   */
  function Filing(hs: seq<Header>): (Headers, string) {
    if hs == [] then (map[], "")
    else
      var (filed, left) := Filing(hs[..|hs| - 1]);
      var name, value := left + hs[|hs| - 1].name, hs[|hs| - 1].value;
      var key := Lower(name);
      if key in filed then (filed[key := (filed[key].0, value)], name) else (filed[key := (name, value)], "")
  }

  function HeaderMap(hs: seq<Header>): Headers { Filing(hs).0 }

  function PartOf(item: Item): Part { Part(HeaderMap(item.headers), item.data) }

  function PartsOf(items: seq<Item>): seq<Part> {
    seq(|items|, i requires 0 <= i < |items| => PartOf(items[i]))
  }

  // ----- Runs -----

  ghost predicate Goes(b: string, m: Machine, s: string, n: Machine)
    requires b != ""
  {
    InRange(b, m) && Run(b, m, s) == Some(n) && Tidy(b, m, s)
  }

  lemma GoesThen(b: string, m: Machine, s: string, n: Machine, t: string, o: Machine)
    requires b != "" && Goes(b, m, s, n) && Goes(b, n, t, o)
    ensures Goes(b, m, s + t, o)
  {
    hide Run, Tidy;
    RunSplits(b, m, s, t);
    TidySplits(b, m, s, t);
  }

  lemma GoesByte(b: string, m: Machine, c: char, n: Machine)
    requires b != "" && InRange(b, m) && Feed(b, m, c) == Some(n) && TidyByte(m.state, c)
    ensures Goes(b, m, [c], n)
  {
    hide Feed, TidyByte;
    assert [c][0] == c && [c][1..] == "";
    assert Run(b, n, "") == Some(n) && Tidy(b, n, "");
  }

  lemma GoesNowhere(b: string, m: Machine)
    requires b != "" && InRange(b, m)
    ensures Goes(b, m, "", m)
  {
  }

  // ----- The boundary line -----

  lemma {:induction false} BoundaryFrom(b: string, m: Machine, i: nat)
    requires b != "" && m.state.StartBoundary? && m.index == i <= |b| && m.held == ""
    ensures Goes(b, m, b[i..], m.(index := |b|))
    decreases |b| - i
  {
    hide Run, Tidy;
    if i == |b| {
      GoesNowhere(b, m);
    } else {
      var n := m.(index := i + 1);
      GoesByte(b, m, b[i], n);
      BoundaryFrom(b, n, i + 1);
      assert b[i..] == [b[i]] + b[i + 1..];
      GoesThen(b, m, [b[i]], n, b[i + 1..], m.(index := |b|));
    }
  }

  lemma BoundaryLine(b: string)
    requires b != ""
    ensures Goes(b, Fresh, b + CRLF, Machine(HeaderFieldStart, 0, "", Idle))
  {
    hide Run, Tidy;
    var s1 := Machine(StartBoundary, 1, "", Idle);
    GoesByte(b, Fresh, b[0], s1);
    BoundaryFrom(b, s1, 1);
    var s2 := s1.(index := |b|);
    assert b == [b[0]] + b[1..];
    GoesThen(b, Fresh, [b[0]], s1, b[1..], s2);
    var s3 := s2.(index := |b| + 1);
    var s4 := Machine(HeaderFieldStart, 0, "", Idle);
    GoesByte(b, s2, CR, s3);
    GoesByte(b, s3, LF, s4);
    GoesThen(b, s2, [CR], s3, [LF], s4);
    assert [CR] + [LF] == CRLF;
    GoesThen(b, Fresh, b, s2, CRLF, s4);
  }

  // ----- Header lines -----

  lemma NameCharIs(c: char)
    ensures NameChar(c) <==> c == '-' || Letter(c)
  {
  }

  /** The bytes the parser gives up on, state by state. */
  predicate Refuses(b: string, m: Machine, c: char)
    requires InRange(b, m) && b != ""
  {
    if m.state.Start? then c != b[0]
    else if m.state.StartBoundary? then c != (b + "\r\n")[m.index]
    else if m.state.HeaderFieldStart? || m.state.HeaderField? then !NameChar(c) && c != ':' && c != '\r'
    else if m.state.HeadersAlmostDone? || m.state.HeaderValueAlmostDone? || m.state.PartDataEnd? then c != '\n'
    else if m.state.PartDataAlmostEnd? then c != '-' && c != '\r'
    else if m.state.PartDataFinalHyphen? then c != '-'
    else false
  }

  /** So in a header's name it gives up exactly on what is no letter, no hyphen, no colon and no CR. */
  lemma RefusedExactly(b: string, m: Machine, c: char)
    requires b != "" && InRange(b, m)
    ensures Feed(b, m, c).None? <==> Refuses(b, m, c)
  {
    NameCharIs(c);
  }

  lemma {:induction false} NameFrom(b: string, m: Machine, s: string)
    requires b != "" && m.state.HeaderField? && forall i :: 0 <= i < |s| ==> NameChar(s[i])
    ensures Goes(b, m, s, m.(held := m.held + s))
    decreases |s|
  {
    hide Run, Tidy;
    if s == "" {
      GoesNowhere(b, m);
      assert m.held + "" == m.held;
    } else {
      NameCharIs(s[0]);
      var n := m.(held := m.held + [s[0]]);
      GoesByte(b, m, s[0], n);
      NameFrom(b, n, s[1..]);
      assert s == [s[0]] + s[1..];
      assert m.held + [s[0]] + s[1..] == m.held + s;
      GoesThen(b, m, [s[0]], n, s[1..], m.(held := m.held + s));
    }
  }

  lemma {:induction false} ValueFrom(b: string, m: Machine, s: string)
    requires b != "" && m.state.HeaderValue? && CR !in s
    ensures Goes(b, m, s, m.(held := m.held + s))
    decreases |s|
  {
    hide Run, Tidy;
    if s == "" {
      GoesNowhere(b, m);
      assert m.held + "" == m.held;
    } else {
      var n := m.(held := m.held + [s[0]]);
      GoesByte(b, m, s[0], n);
      ValueFrom(b, n, s[1..]);
      assert s == [s[0]] + s[1..];
      assert m.held + [s[0]] + s[1..] == m.held + s;
      GoesThen(b, m, [s[0]], n, s[1..], m.(held := m.held + s));
    }
  }

  lemma {:induction false} PadFrom(b: string, m: Machine, pad: string)
    requires b != "" && m.state.HeaderValueStart? && m.held == "" && forall i :: 0 <= i < |pad| ==> pad[i] == ' '
    ensures Goes(b, m, pad, m)
    decreases |pad|
  {
    hide Run, Tidy;
    if pad == "" {
      GoesNowhere(b, m);
    } else {
      GoesByte(b, m, ' ', m);
      PadFrom(b, m, pad[1..]);
      assert pad == [' '] + pad[1..];
      GoesThen(b, m, [' '], m, pad[1..], m);
    }
  }

  lemma NameLine(b: string, m: Machine, name: string, pad: string)
    requires b != "" && m.state.HeaderFieldStart? && m.held == ""
    requires name != "" && forall i :: 0 <= i < |name| ==> NameChar(name[i])
    requires forall i :: 0 <= i < |pad| ==> pad[i] == ' '
    ensures Goes(b, m, name + ":" + pad, m.(state := HeaderValueStart, reader := OnHeaderField(m.reader, name)))
  {
    hide Run, Tidy, OnHeaderField;
    var c := name[0];
    NameCharIs(c);
    var s1 := m.(state := HeaderField, held := [c]);
    assert "" + [c] == [c];
    GoesByte(b, m, c, s1);
    NameFrom(b, s1, name[1..]);
    assert name == [c] + name[1..];
    var s2 := m.(state := HeaderField, held := name);
    GoesThen(b, m, [c], s1, name[1..], s2);
    var s3 := m.(state := HeaderValueStart, reader := OnHeaderField(m.reader, name));
    GoesByte(b, s2, ':', s3);
    GoesThen(b, m, name, s2, ":", s3);
    PadFrom(b, s3, pad);
    GoesThen(b, m, name + ":", s3, pad, s3);
  }

  lemma ValueLine(b: string, m: Machine, value: string)
    requires b != "" && m.state.HeaderValueStart? && m.held == ""
    requires '\r' !in value && (value != "" ==> value[0] != ' ')
    ensures Goes(b, m, value + CRLF, m.(state := HeaderFieldStart, reader := OnHeaderValue(m.reader, value)))
  {
    hide Run, Tidy, OnHeaderValue;
    var s2 := m.(state := HeaderValueAlmostDone, reader := OnHeaderValue(m.reader, value));
    var s3 := s2.(state := HeaderFieldStart);
    if value == "" {
      GoesByte(b, m, CR, s2);
      assert value + [CR] == [CR];
    } else {
      var s0 := m.(state := HeaderValue, held := [value[0]]);
      assert "" + [value[0]] == [value[0]];
      GoesByte(b, m, value[0], s0);
      ValueFrom(b, s0, value[1..]);
      assert value == [value[0]] + value[1..];
      var s1 := m.(state := HeaderValue, held := value);
      GoesThen(b, m, [value[0]], s0, value[1..], s1);
      GoesByte(b, s1, CR, s2);
      GoesThen(b, m, value, s1, [CR], s2);
    }
    GoesByte(b, s2, LF, s3);
    GoesThen(b, m, value + [CR], s2, [LF], s3);
    assert value + [CR] + [LF] == value + CRLF;
  }

  /** The reader after the header lines `hs`. */
  function ReaderAfter(r: Reader, hs: seq<Header>): Reader {
    if hs == [] then r
    else OnHeaderValue(OnHeaderField(ReaderAfter(r, hs[..|hs| - 1]), hs[|hs| - 1].name), hs[|hs| - 1].value)
  }

  lemma {:induction false} HeaderLines(b: string, m: Machine, hs: seq<Header>)
    requires b != "" && m.state.HeaderFieldStart? && m.held == "" && forall h :: h in hs ==> WritableHeader(h)
    ensures Goes(b, m, WriteHeaders(hs), m.(reader := ReaderAfter(m.reader, hs)))
    decreases |hs|
  {
    hide Run, Tidy, OnHeaderField, OnHeaderValue, Goes;
    if hs == [] {
      GoesNowhere(b, m);
    } else {
      var front, h := hs[..|hs| - 1], hs[|hs| - 1];
      assert WritableHeader(h) by { assert h in hs; }
      HeaderLines(b, m, front);
      var s1 := m.(reader := ReaderAfter(m.reader, front));
      NameLine(b, s1, h.name, h.pad);
      var s2 := s1.(state := HeaderValueStart, reader := OnHeaderField(s1.reader, h.name));
      ValueLine(b, s2, h.value);
      var s3 := s2.(state := HeaderFieldStart, reader := OnHeaderValue(s2.reader, h.value));
      GoesThen(b, s1, h.name + ":" + h.pad, s2, h.value + CRLF, s3);
      GoesThen(b, m, WriteHeaders(front), s1, WriteHeader(h), s3);
    }
  }

  lemma {:induction false} FilingDistinct(hs: seq<Header>)
    requires DistinctNames(hs)
    ensures Filing(hs).1 == ""
    ensures forall key :: key in Filing(hs).0 <==> exists i :: 0 <= i < |hs| && Lower(hs[i].name) == key
    decreases |hs|
  {
    hide Lower;
    if hs != [] {
      var front, h := hs[..|hs| - 1], hs[|hs| - 1];
      FilingDistinct(front);
      assert "" + h.name == h.name;
      assert forall i :: 0 <= i < |front| ==> front[i] == hs[i];
      var key := Lower(h.name);
      assert key !in Filing(front).0;
      forall k ensures k in Filing(hs).0 <==> exists i :: 0 <= i < |hs| && Lower(hs[i].name) == k {
        if k in Filing(front).0 {
          var i :| 0 <= i < |front| && Lower(front[i].name) == k;
          assert Lower(hs[i].name) == k;
        }
        if i :| 0 <= i < |hs| && Lower(hs[i].name) == k {
          if i < |front| { assert Lower(front[i].name) == k; }
        }
      }
    }
  }

  /** The filed headers hold exactly the written ones: each name, whatever its case, finds its own name and value. */
  lemma {:induction false} HeaderMapExact(hs: seq<Header>)
    requires DistinctNames(hs)
    ensures forall i :: 0 <= i < |hs| ==>
              Lower(hs[i].name) in HeaderMap(hs) && HeaderMap(hs)[Lower(hs[i].name)] == (hs[i].name, hs[i].value)
    ensures |HeaderMap(hs)| == |hs|
    decreases |hs|
  {
    hide Lower;
    if hs != [] {
      var front, h := hs[..|hs| - 1], hs[|hs| - 1];
      assert forall i :: 0 <= i < |front| ==> front[i] == hs[i];
      HeaderMapExact(front);
      FilingDistinct(front);
      assert "" + h.name == h.name;
      assert Lower(h.name) !in HeaderMap(front);
      OneMore(HeaderMap(front), Lower(h.name), (h.name, h.value));
    }
  }

  lemma OneMore(m: Headers, key: string, v: (string, string))
    requires key !in m
    ensures |m[key := v]| == |m| + 1
  {
    assert m[key := v].Keys == m.Keys + {key};
    assert |m.Keys| == |m| && |m[key := v].Keys| == |m[key := v]|;
  }

  /**
   * A header whose name was filed before, ignoring case, changes the value alone. Its own name is left over and stands
   * before that of the next header.
   */
  lemma RepeatedName(hs: seq<Header>, i: nat, again: Header, next: Header)
    requires DistinctNames(hs) && i < |hs| && Lower(again.name) == Lower(hs[i].name)
    requires forall j :: 0 <= j < |hs| ==> Lower(hs[j].name) != Lower(again.name + next.name)
    ensures HeaderMap(hs + [again]) == HeaderMap(hs)[Lower(hs[i].name) := (hs[i].name, again.value)]
    ensures HeaderMap(hs + [again, next]) ==
            HeaderMap(hs + [again])[Lower(again.name + next.name) := (again.name + next.name, next.value)]
  {
    hide Lower;
    FilingDistinct(hs);
    HeaderMapExact(hs);
    var one, two := hs + [again], hs + [again, next];
    assert one[..|one| - 1] == hs && two[..|two| - 1] == one;
    assert "" + again.name == again.name;
  }

  /** The two cases of one ASCII letter. */
  predicate OneLetter(a: char, b: char) {
    var i, j := a as int, b as int;
    (65 <= i <= 90 && j == i + 32) || (65 <= j <= 90 && i == j + 32)
  }

  /** Names are filed under one key exactly when they are the same up to the case of their letters. */
  lemma KeyExact(a: string, b: string)
    ensures Lower(a) == Lower(b) <==>
              |a| == |b| && forall i :: 0 <= i < |a| ==> a[i] == b[i] || OneLetter(a[i], b[i])
  {
    hide LowerChar, OneLetter;
    forall x, y ensures LowerChar(x) == LowerChar(y) <==> x == y || OneLetter(x, y) { LowerExact(x, y); }
    if Lower(a) == Lower(b) {
      forall i | 0 <= i < |a| ensures a[i] == b[i] || OneLetter(a[i], b[i]) {
        assert Lower(a)[i] == LowerChar(a[i]) && Lower(b)[i] == LowerChar(b[i]);
      }
    }
  }

  lemma LowerExact(x: char, y: char)
    ensures LowerChar(x) == LowerChar(y) <==> x == y || OneLetter(x, y)
  {
  }

  /** A value waits until the next name or the end of the headers before it is filed. */
  lemma {:induction false} ReaderAfterIs(r: Reader, hs: seq<Header>)
    requires r.phase.NoHeader? && r.fieldText == "" && r.valueText == "" && r.headers == map[]
    requires forall h :: h in hs ==> h.name != ""
    ensures ReaderAfter(r, hs) == if hs == [] then r
                                  else r.(phase := InValue, fieldText := Filing(hs[..|hs| - 1]).1 + hs[|hs| - 1].name,
                                          valueText := hs[|hs| - 1].value, headers := HeaderMap(hs[..|hs| - 1]))
    decreases |hs|
  {
    hide Lower;
    if hs != [] {
      var front, h := hs[..|hs| - 1], hs[|hs| - 1];
      ReaderAfterIs(r, front);
      assert h in hs && "" + h.name == h.name && "" + h.value == h.value;
      if front != [] {
        assert front[|front| - 1] in hs;
      }
    }
  }

  lemma AllFiled(r: Reader, hs: seq<Header>)
    requires r.phase.NoHeader? && r.fieldText == "" && r.valueText == "" && r.headers == map[]
    requires forall h :: h in hs ==> h.name != ""
    ensures OnHeadersComplete(ReaderAfter(r, hs)) == r.(headers := HeaderMap(hs), fieldText := Filing(hs).1)
  {
    hide Lower;
    ReaderAfterIs(r, hs);
    if hs != [] { assert hs[|hs| - 1] in hs; }
  }

  // ----- Data -----

  /** In `data` followed by the delimiter, the delimiter does not come any earlier. */
  lemma DelimiterComesFirst(b: string, data: string)
    requires CR !in b && !Occurs(data, Delimiter(b))
    ensures FirstAt(data + Delimiter(b), Delimiter(b), |data|)
  {
    var d := Delimiter(b);
    var s := data + d;
    assert s[|data|..|data| + |d|] == d;
    forall i: nat | i < |data| ensures !OccursAt(s, d, i) {
      if i + |d| <= |data| {
        assert s[i..i + |d|] == data[i..i + |d|];
        assert !OccursAt(data, d, i);
      } else {
        assert s[i..i + |d|][|data| - i] == s[|data|] == d[0] == CR;
        assert d[|data| - i] != CR;
      }
    }
  }

  lemma {:induction false} ScanTidy(b: string, m: Machine, raw: string, s: string)
    requires CR !in b && b != "" && Scanning(b, m, raw) && !Occurs(raw + s, Delimiter(b))
    ensures Tidy(b, m, s)
    decreases |s|
  {
    hide Feed;
    if s != "" {
      var next := raw + [s[0]];
      assert raw + s == next + s[1..];
      NotInPrefix(next, s[1..], Delimiter(b));
      OccursGrows(raw, s[0], Delimiter(b));
      ScanStep(b, m, raw, s[0]);
      ScanTidy(b, Feed(b, m, s[0]).value, next, s[1..]);
    }
  }

  lemma DataTidy(b: string, m: Machine, data: string)
    requires CR !in b && b != "" && AtDataStart(m) && !Occurs(data, Delimiter(b))
    ensures Tidy(b, m, data + Delimiter(b))
  {
    hide Feed, Scanning;
    var d := Delimiter(b);
    var s := data + d;
    var front := s[..|s| - 1];
    DelimiterComesFirst(b, data);
    forall i: nat ensures OccursAt(front, d, i) ==> i < |data| && OccursAt(s, d, i) {
      if i + |d| <= |front| { assert s[i..i + |d|] == front[i..i + |d|]; }
    }
    OpenedFeeds(b, m);
    OpenedIsFresh(b, m);
    assert "" + front == front;
    ScanTidy(b, Opened(m), "", front);
    ScanRun(b, Opened(m), "", front);
    var n := Run(b, Opened(m), front).value;
    assert front + [s[|s| - 1]] == s;
    TidySplits(b, Opened(m), front, [s[|s| - 1]]);
    ScanIsData(b, n, front);
    LastTidy(b, n, s[|s| - 1]);
    assert s[0] == s[..1][0];
  }

  lemma ScanIsData(b: string, m: Machine, raw: string)
    requires Scanning(b, m, raw)
    ensures InRange(b, m) && !m.state.HeaderField? && !m.state.HeaderFieldStart?
  {
  }

  lemma LastTidy(b: string, m: Machine, c: char)
    requires b != "" && InRange(b, m) && !m.state.HeaderField? && !m.state.HeaderFieldStart?
    ensures Tidy(b, m, [c])
  {
    hide Feed;
    if Feed(b, m, c).Some? { assert [c][1..] == "" && Tidy(b, Feed(b, m, c).value, ""); }
  }

  // ----- Items -----

  /** The machine at the first header line of a part, with `parts` finished. */
  function Between(parts: seq<Part>, index: nat): Machine {
    Machine(HeaderFieldStart, index, "", Reader(NoHeader, "", "", map[], "", parts))
  }

  /** The connection after a part; a name may be left over until the next one begins. */
  function Filed(parts: seq<Part>, item: Item): Reader {
    Reader(NoHeader, Filing(item.headers).1, "", map[], "", parts + [PartOf(item)])
  }

  lemma ItemGoes(b: string, parts: seq<Part>, index: nat, item: Item)
    requires b != "" && CR !in b && Writable(b, item)
    ensures Goes(b, Between(parts, index), WriteItem(b, item),
                 Machine(PartDataAlmostEnd, |b|, "", Filed(parts, item)))
  {
    hide Run, Tidy, Goes, ReaderAfter, OnHeadersComplete, Lower, Filing;
    assert Delimiter(b) == CRLF + b;
    var m := Between(parts, index);
    HeaderLines(b, m, item.headers);
    AllFiled(m.reader, item.headers);
    var s1 := m.(reader := ReaderAfter(m.reader, item.headers));
    var s2 := s1.(state := PartDataStart);
    BlankLine(b, s1);
    GoesThen(b, m, WriteHeaders(item.headers), s1, CRLF, s2);
    ReaderBuffer(m.reader, item.headers);
    DataGoes(b, s2, item.data);
    var s3 := Machine(PartDataAlmostEnd, |b|, "", OnDataEnd(OnHeadersComplete(s2.reader).(buffer := item.data)));
    GoesThen(b, m, WriteHeaders(item.headers) + CRLF, s2, item.data + Delimiter(b), s3);
  }

  lemma {:induction false} ReaderBuffer(r: Reader, hs: seq<Header>)
    ensures ReaderAfter(r, hs).buffer == r.buffer && ReaderAfter(r, hs).parts == r.parts
    decreases |hs|
  {
    hide Lower;
    if hs != [] { ReaderBuffer(r, hs[..|hs| - 1]); }
  }

  lemma BlankLine(b: string, m: Machine)
    requires b != "" && m.state.HeaderFieldStart? && m.held == ""
    ensures Goes(b, m, CRLF, m.(state := PartDataStart))
  {
    hide Run, Tidy;
    var s1 := m.(state := HeadersAlmostDone);
    GoesByte(b, m, CR, s1);
    GoesByte(b, s1, LF, m.(state := PartDataStart));
    GoesThen(b, m, [CR], s1, [LF], m.(state := PartDataStart));
    assert [CR] + [LF] == CRLF;
  }

  lemma DataGoes(b: string, m: Machine, data: string)
    requires b != "" && CR !in b && AtDataStart(m) && !Occurs(data, Delimiter(b))
    ensures Goes(b, m, data + Delimiter(b),
                 Machine(PartDataAlmostEnd, |b|, "", OnDataEnd(OnHeadersComplete(m.reader).(buffer := data))))
  {
    hide Feed, Tidy, OnHeadersComplete, OnDataEnd;
    var s := data + Delimiter(b);
    DelimiterComesFirst(b, data);
    PartEndsAtFirstDelimiter(b, m, s, |data|);
    DataTidy(b, m, data);
    assert s[..|data| + |Delimiter(b)|] == s && s[..|data|] == data;
    EndIndex(b, m, s);
  }

  /** The boundary's last byte leaves the index at the boundary's length. */
  lemma EndIndex(b: string, m: Machine, s: string)
    requires b != "" && InRange(b, m) && s != ""
    requires Run(b, m, s).Some? && Run(b, m, s).value.state.PartDataAlmostEnd? && !m.state.PartDataAlmostEnd?
    ensures Run(b, m, s).value.index == |b|
    decreases |s|
  {
    var n := Feed(b, m, s[0]).value;
    if s[1..] == "" {
    } else if n.state.PartDataAlmostEnd? {
      NoWayBack(b, n, s[1..]);
    } else {
      EndIndex(b, n, s[1..]);
    }
  }

  lemma NoWayBack(b: string, m: Machine, s: string)
    requires b != "" && InRange(b, m) && m.state.PartDataAlmostEnd? && s != "" && m.index == |b|
    requires Run(b, m, s).Some? && Run(b, m, s).value.state.PartDataAlmostEnd?
    ensures Run(b, m, s).value.index == |b|
    decreases |s|
  {
    var n := Feed(b, m, s[0]).value;
    if s[1..] != "" { EndIndex(b, n, s[1..]); }
  }

  lemma {:induction false} ItemsGo(b: string, parts: seq<Part>, index: nat, items: seq<Item>, epilogue: string)
    requires b != "" && CR !in b && items != [] && forall item :: item in items ==> Writable(b, item)
    ensures exists n :: Goes(b, Between(parts, index), WriteItems(b, items, epilogue), n)
                        && n.state.End? && n.held == "" && n.reader.parts == parts + PartsOf(items)
    decreases |items|
  {
    hide Run, Tidy, Goes, Writable, WriteItem;
    var m := Between(parts, index);
    var done := parts + [PartOf(items[0])];
    var s1 := Machine(PartDataAlmostEnd, |b|, "", Filed(parts, items[0]));
    ItemGoes(b, parts, index, items[0]);
    if |items| == 1 {
      LastBoundary(b, s1, epilogue);
      assert PartsOf(items) == [PartOf(items[0])];
      GoesThen(b, m, WriteItem(b, items[0]), s1, "--" + epilogue, s1.(state := End));
    } else {
      NextPart(b, s1);
      var s2 := Between(done, |b|);
      ItemsGo(b, done, |b|, items[1..], epilogue);
      var n :| Goes(b, s2, WriteItems(b, items[1..], epilogue), n)
               && n.state.End? && n.held == "" && n.reader.parts == done + PartsOf(items[1..]);
      GoesThen(b, s1, CRLF, s2, WriteItems(b, items[1..], epilogue), n);
      GoesThen(b, m, WriteItem(b, items[0]), s1, CRLF + WriteItems(b, items[1..], epilogue), n);
      assert PartsOf(items) == [PartOf(items[0])] + PartsOf(items[1..]);
      assert done + PartsOf(items[1..]) == parts + PartsOf(items);
    }
  }

  lemma NextPart(b: string, m: Machine)
    requires b != "" && m.state.PartDataAlmostEnd? && m.held == ""
    ensures Goes(b, m, CRLF, m.(state := HeaderFieldStart, reader := OnDataBegin(m.reader)))
  {
    hide Run, Tidy;
    var s1 := m.(state := PartDataEnd);
    var s2 := m.(state := HeaderFieldStart, reader := OnDataBegin(m.reader));
    GoesByte(b, m, CR, s1);
    GoesByte(b, s1, LF, s2);
    GoesThen(b, m, [CR], s1, [LF], s2);
    assert [CR] + [LF] == CRLF;
  }

  lemma LastBoundary(b: string, m: Machine, epilogue: string)
    requires b != "" && m.state.PartDataAlmostEnd? && m.held == ""
    ensures Goes(b, m, "--" + epilogue, m.(state := End))
  {
    hide Run, Tidy;
    var s1, s2 := m.(state := PartDataFinalHyphen), m.(state := End);
    GoesByte(b, m, '-', s1);
    GoesByte(b, s1, '-', s2);
    GoesThen(b, m, "-", s1, "-", s2);
    assert "-" + "-" == "--";
    EndStays(b, s2, epilogue);
    GoesThen(b, m, "--", s2, epilogue, s2);
  }

  lemma {:induction false} EndStays(b: string, m: Machine, s: string)
    requires b != "" && m.state.End? && m.held == ""
    ensures Goes(b, m, s, m)
    decreases |s|
  {
    hide Run, Tidy;
    if s == "" {
      GoesNowhere(b, m);
    } else {
      GoesByte(b, m, s[0], m);
      EndStays(b, m, s[1..]);
      assert s == [s[0]] + s[1..];
      GoesThen(b, m, [s[0]], m, s[1..], m);
    }
  }

  /**
   * Any list of parts, written down and fed to the parser in any cut, is accepted and comes out of
   * the connection as exactly those parts, in order.
   */
  lemma PartsComeBack(b: string, items: seq<Item>, epilogue: string, bufs: seq<string>)
    requires b != "" && '\r' !in b && items != [] && forall item :: item in items ==> Writable(b, item)
    requires Concat(bufs) == WriteMessage(b, items, epilogue)
    ensures ExecuteAll(b, Fresh, bufs).Some?
    ensures ExecuteAll(b, Fresh, bufs).value.state.End?
    ensures ExecuteAll(b, Fresh, bufs).value.reader.parts == PartsOf(items)
  {
    hide Run, Tidy, Writable, WriteItems, ExecuteAll;
    BoundaryLine(b);
    ItemsGo(b, [], 0, items, epilogue);
    var n :| Goes(b, Between([], 0), WriteItems(b, items, epilogue), n)
             && n.state.End? && n.held == "" && n.reader.parts == [] + PartsOf(items);
    GoesThen(b, Fresh, b + CRLF, Between([], 0), WriteItems(b, items, epilogue), n);
    CutsAlike(b, Fresh, Fresh, bufs);
    NothingHeld(b, Fresh, bufs);
    assert [] + PartsOf(items) == PartsOf(items);
  }

  /** A message without parts is not accepted, although its form is the closing boundary alone. */
  lemma NoPartsRefused(b: string, epilogue: string)
    requires b != ""
    ensures Run(b, Fresh, b + "--" + epilogue).None?
  {
    hide Run, Tidy;
    var s1 := Machine(StartBoundary, 1, "", Idle);
    GoesByte(b, Fresh, b[0], s1);
    BoundaryFrom(b, s1, 1);
    assert b == [b[0]] + b[1..];
    GoesThen(b, Fresh, [b[0]], s1, b[1..], s1.(index := |b|));
    assert b + "--" + epilogue == b + ("--" + epilogue);
    RunSplits(b, Fresh, b, "--" + epilogue);
    HyphenRefused(b, s1.(index := |b|), "-" + epilogue);
    assert "-" + ("-" + epilogue) == "--" + epilogue;
  }

  lemma HyphenRefused(b: string, m: Machine, rest: string)
    requires b != "" && m.state.StartBoundary? && m.index == |b| && m.held == ""
    ensures Run(b, m, "-" + rest).None?
  {
  }
}
