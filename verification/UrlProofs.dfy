/** The texts that are URLs, and reading them back. */
module UrlRoundTrip {
  import opened Options
  import opened UrlSpec

  // ----- What may stand where, told apart from what the automata test -----

  predicate Letter(c: char) { 65 <= c as int <= 90 || 97 <= c as int <= 122 }
  predicate Digit(c: char) { 48 <= c as int <= 57 }
  predicate NameText(c: char) { Letter(c) || Digit(c) || c in ".-_" }
  predicate UserText(c: char) { Letter(c) || Digit(c) || c in "-_.!~*'()%;:&=+$," }
  predicate AddressText(c: char) { Digit(c) || 65 <= c as int <= 70 || 97 <= c as int <= 102 || c in ":." }
  predicate ZoneText(c: char) { Letter(c) || Digit(c) || c in "%.-_~" }

  /** Tab, form feed, what is printable in ASCII but for `#` and `?`, and every byte from 128 on. */
  predicate PathText(c: char) {
    var n := c as int;
    n == 9 || n == 12 || 33 <= n <= 34 || 36 <= n <= 62 || 64 <= n <= 126 || n >= 128
  }

  predicate QueryText(c: char) { PathText(c) || c == '?' }
  predicate FragmentText(c: char) { PathText(c) || c == '?' || c == '#' }

  lemma Classes(c: char)
    ensures Alpha(c) <==> Letter(c)
    ensures Num(c) <==> Digit(c)
    ensures HostChar(c) <==> NameText(c)
    ensures UserInfoChar(c) <==> UserText(c)
    ensures ZoneChar(c) <==> ZoneText(c)
    ensures (Hex(c) || c == ':' || c == '.') <==> AddressText(c)
    ensures UrlChar(c) <==> PathText(c)
  {
  }

  predicate All(s: string, p: char -> bool) { forall i :: 0 <= i < |s| ==> p(s[i]) }

  predicate NonEmpty(s: string, p: char -> bool) { s != "" && All(s, p) }

  // ----- URLs as they are written -----

  datatype HostPart = Name(name: string) | V6(address: string, zone: Option<string>)

  /** User information may be empty and still show its `@`. */
  datatype Authority = Authority(userInfo: Option<string>, host: HostPart, port: Option<string>)

  /** A query or a fragment may be empty as well; a fragment may have more than one `#` before it. */
  datatype Tail = Tail(path: string, query: Option<string>, fragment: Option<string>, hashes: nat)

  datatype Form = Form(schema: Option<string>, authority: Option<Authority>, tail: Tail)

  predicate HostOk(h: HostPart) {
    match h
    case Name(name) => NonEmpty(name, NameText)
    case V6(address, zone) => NonEmpty(address, AddressText) && (zone.Some? ==> NonEmpty(zone.value, ZoneText))
  }

  predicate PortOk(port: string) {
    AllDigits(port) && DecimalValue(port) <= 65535
  }

  predicate AuthorityOk(a: Authority) {
    && (a.userInfo.Some? ==> All(a.userInfo.value, UserText))
    && HostOk(a.host)
    && (a.port.Some? ==> NonEmpty(a.port.value, Digit))
  }

  /** A fragment cannot follow the authority directly. */
  predicate TailOk(t: Tail) {
    && All(t.path, PathText)
    && (t.query.Some? ==> All(t.query.value, QueryText))
    && (t.fragment.Some? ==>
          && All(t.fragment.value, FragmentText) && (t.fragment.value != "" ==> t.fragment.value[0] != '#')
          && (t.path != "" || t.query.Some?))
    && (t.fragment.None? ==> t.hashes == 0)
  }

  /** Nothing of the tail is a field. */
  predicate Bare(t: Tail) {
    t.path == "" && (t.query.Some? ==> t.query.value == "") && (t.fragment.Some? ==> t.fragment.value == "")
  }

  function PortOf(f: Form): Option<string> { if f.authority.Some? then f.authority.value.port else None }

  /** What is asked for of a `CONNECT` request, of a request by absolute URL, and of any other request. */
  predicate FormOk(f: Form, isConnect: bool) {
    && (PortOf(f).Some? ==> PortOk(PortOf(f).value))
    && (f.schema.Some? ==> NonEmpty(f.schema.value, Letter))
    && (f.authority.Some? ==> AuthorityOk(f.authority.value))
    && TailOk(f.tail)
    && if isConnect then
         && f.schema.None? && f.authority.Some? && f.authority.value.port.Some?
         && (f.authority.value.userInfo.Some? ==> f.authority.value.userInfo.value == "")
         && Bare(f.tail)
       else if f.schema.Some? then f.authority.Some? && (f.tail.path != "" ==> f.tail.path[0] == '/')
       else f.authority.None? && f.tail.path != "" && (f.tail.path[0] == '/' || f.tail.path[0] == '*')
  }

  /** What the host's field is to span: the address without brackets, with its zone. */
  function HostValue(h: HostPart): string {
    match h
    case Name(name) => name
    case V6(address, zone) => address + if zone.Some? then "%" + zone.value else ""
  }

  function WriteHost(h: HostPart): string {
    if h.Name? then h.name else "[" + HostValue(h) + "]"
  }

  function WriteUserInfo(a: Authority): string { if a.userInfo.Some? then a.userInfo.value + "@" else "" }
  function WritePort(a: Authority): string { if a.port.Some? then ":" + a.port.value else "" }
  function WriteAuthority(a: Authority): string { WriteUserInfo(a) + (WriteHost(a.host) + WritePort(a)) }

  function Hashes(n: nat): string { seq(n, _ => '#') }
  function WriteQuery(t: Tail): string { if t.query.Some? then "?" + t.query.value else "" }
  function WriteFragment(t: Tail): string { if t.fragment.Some? then "#" + (Hashes(t.hashes) + t.fragment.value) else "" }
  function WriteTail(t: Tail): string { t.path + (WriteQuery(t) + WriteFragment(t)) }

  function WriteSchema(f: Form): string { if f.schema.Some? then f.schema.value + "://" else "" }
  function WriteMiddle(f: Form): string { if f.authority.Some? then WriteAuthority(f.authority.value) else "" }

  function WriteUrl(f: Form): string { WriteSchema(f) + (WriteMiddle(f) + WriteTail(f.tail)) }

  // ----- Stretches of the whole-URL scan -----

  function End(s: State, t: string): State
    decreases |t|
  {
    if t == "" then s else End(NextState(s, t[0]), t[1..])
  }

  predicate StaysIn(s: State, f: Field, t: string)
    decreases |t|
  {
    t == "" || (FieldOf(NextState(s, t[0])) == Some(f) && StaysIn(NextState(s, t[0]), f, t[1..]))
  }

  predicate SeesAt(s: State, t: string)
    decreases |t|
  {
    t != "" && (NextState(s, t[0]).ServerWithAt? || SeesAt(NextState(s, t[0]), t[1..]))
  }

  lemma {:induction false} ScanSplits(a: Scan, s: string, t: string, p: nat)
    requires Good(a)
    ensures ScanText(a, s + t, p) ==
            match ScanText(a, s, p)
            case None => None
            case Some(b) => ScanText(b, t, p + |s|)
    decreases |s|
  {
    hide ScanByte;
    if s == "" {
      assert s + t == t;
    } else {
      assert (s + t)[1..] == s[1..] + t;
      var b := ScanByte(a, s[0], p);
      if b.Some? { ScanSplits(b.value, s[1..], t, p + 1); }
    }
  }

  lemma StretchStep(s: State, f: Field, t: string)
    ensures t == "" ==> End(s, t) == s && StaysIn(s, f, t) && !SeesAt(s, t)
    ensures t != "" ==>
              var s' := NextState(s, t[0]);
              && End(s, t) == End(s', t[1..])
              && (StaysIn(s, f, t) <==> FieldOf(s') == Some(f) && StaysIn(s', f, t[1..]))
              && (SeesAt(s, t) <==> s'.ServerWithAt? || SeesAt(s', t[1..]))
  {
    hide NextState, FieldOf;
  }

  lemma ScanStep(a: Scan, t: string, p: nat)
    requires Good(a)
    ensures t == "" ==> ScanText(a, t, p) == Some(a)
    ensures t != "" && ScanByte(a, t[0], p).Some? ==>
              ScanText(a, t, p) == ScanText(ScanByte(a, t[0], p).value, t[1..], p + 1)
  {
    hide ScanByte;
  }

  lemma {:induction false} GrowRun(a: Scan, f: Field, t: string, p: nat)
    requires Good(a) && a.last == Some(f) && f in a.fields && StaysIn(a.state, f, t)
    requires a.fields[f].len + |t| < WORD
    ensures ScanText(a, t, p) ==
            Some(Scan(End(a.state, t), a.fields[f := Span(a.fields[f].off, a.fields[f].len + |t|)], Some(f),
                      a.foundAt || SeesAt(a.state, t)))
    decreases |t|
  {
    hide NextState, FieldOf, ScanByte, ScanText, StaysIn, SeesAt, End;
    StretchStep(a.state, f, t);
    ScanStep(a, t, p);
    if t == "" {
      assert a.fields[f := a.fields[f]] == a.fields;
    } else {
      GrowsField(a, f, t[0], p);
      var b := ScanByte(a, t[0], p).value;
      GrowRun(b, f, t[1..], p + 1);
      var span := a.fields[f];
      assert b.fields[f := Span(span.off, span.len + |t|)] == a.fields[f := Span(span.off, span.len + |t|)];
    }
  }

  lemma GrowsField(a: Scan, f: Field, c: char, p: nat)
    requires Good(a) && a.last == Some(f) && FieldOf(NextState(a.state, c)) == Some(f) && a.fields[f].len + 1 < WORD
    ensures ScanByte(a, c, p) ==
            Some(Scan(NextState(a.state, c), a.fields[f := Span(a.fields[f].off, a.fields[f].len + 1)], Some(f),
                      a.foundAt || NextState(a.state, c).ServerWithAt?))
  {
    hide NextState, FieldOf;
    DeadHasNoField();
  }

  lemma OpensField(a: Scan, f: Field, c: char, p: nat)
    requires Good(a) && a.last != Some(f) && FieldOf(NextState(a.state, c)) == Some(f) && p < WORD
    ensures ScanByte(a, c, p) ==
            Some(Scan(NextState(a.state, c), a.fields[f := Span(p, 1)], Some(f),
                      a.foundAt || NextState(a.state, c).ServerWithAt?))
  {
    hide NextState, FieldOf;
    DeadHasNoField();
  }

  lemma DeadHasNoField()
    ensures FieldOf(Dead) == None
  {
  }

  /** A stretch that opens a field and stays in it. */
  lemma FieldRun(a: Scan, f: Field, t: string, p: nat)
    requires Good(a) && a.last != Some(f) && t != "" && StaysIn(a.state, f, t) && p + |t| < WORD
    ensures ScanText(a, t, p) ==
            Some(Scan(End(a.state, t), a.fields[f := Span(p, |t|)], Some(f), a.foundAt || SeesAt(a.state, t)))
  {
    hide NextState, FieldOf, ScanByte, ScanText, StaysIn, SeesAt, End;
    StretchStep(a.state, f, t);
    ScanStep(a, t, p);
    OpensField(a, f, t[0], p);
    var b := ScanByte(a, t[0], p).value;
    GrowRun(b, f, t[1..], p + 1);
    assert b.fields[f := Span(p, |t|)] == a.fields[f := Span(p, |t|)];
  }

  lemma SkipByte(a: Scan, c: char, s: State, p: nat)
    requires Good(a) && NextState(a.state, c) == s && !s.Dead? && FieldOf(s).None? && !s.ServerWithAt?
    ensures ScanText(a, [c], p) == Some(a.(state := s))
  {
    hide NextState;
    assert [c][1..] == "";
    assert ScanText(a.(state := s), "", p + 1) == Some(a.(state := s));
  }

  /** Every byte of one class keeps the state. */
  lemma {:induction false} ClassStays(s: State, s': State, f: Field, t: string)
    requires FieldOf(s') == Some(f) && !s'.ServerWithAt?
    requires t != "" ==> NextState(s, t[0]) == s'
    requires forall i :: 0 < i < |t| ==> NextState(s', t[i]) == s'
    ensures StaysIn(s, f, t) && End(s, t) == (if t == "" then s else s') && !SeesAt(s, t)
    decreases |t|
  {
    hide NextState, FieldOf, StaysIn, SeesAt, End;
    StretchStep(s, f, t);
    if t != "" {
      forall i | 0 < i < |t[1..]| ensures NextState(s', t[1..][i]) == s' { assert t[1..][i] == t[i + 1]; }
      if t[1..] != "" { assert t[1..][0] == t[1]; }
      ClassStays(s', s', f, t[1..]);
    }
  }

  lemma {:induction false} StaysThen(s: State, f: Field, t: string, u: string)
    ensures StaysIn(s, f, t + u) <==> StaysIn(s, f, t) && StaysIn(End(s, t), f, u)
    ensures End(s, t + u) == End(End(s, t), u)
    ensures SeesAt(s, t + u) <==> SeesAt(s, t) || SeesAt(End(s, t), u)
    decreases |t|
  {
    hide NextState, FieldOf, StaysIn, SeesAt, End;
    StretchStep(s, f, t);
    StretchStep(s, f, t + u);
    if t == "" {
      assert t + u == u;
    } else {
      assert (t + u)[1..] == t[1..] + u;
      StaysThen(NextState(s, t[0]), f, t[1..], u);
    }
  }

  // ----- The scan of a written URL -----

  /** A written URL with its authority in one piece; it may be empty, and is no more than characters in a row. */
  datatype Raw = Raw(schema: Option<string>, authority: string, tail: Tail)

  predicate AuthorityChar(c: char) { UserText(c) || c == '[' || c == ']' }

  /** No two `@` side by side. */
  predicate RawAuthority(t: string) {
    && (forall i :: 0 <= i < |t| ==> AuthorityChar(t[i]) || t[i] == '@')
    && (forall i :: 0 < i < |t| && t[i] == '@' ==> t[i - 1] != '@')
  }

  predicate RawOk(r: Raw, isConnect: bool) {
    && (r.schema.Some? ==> NonEmpty(r.schema.value, Letter))
    && RawAuthority(r.authority) && TailOk(r.tail)
    && if isConnect || r.schema.Some? then
         !(isConnect && r.schema.Some?) && (r.tail.path != "" ==> r.tail.path[0] == '/')
       else r.authority == "" && r.tail.path != "" && (r.tail.path[0] == '/' || r.tail.path[0] == '*')
  }

  function RawSchema(r: Raw): string { if r.schema.Some? then r.schema.value + "://" else "" }
  function WriteRaw(r: Raw): string { RawSchema(r) + (r.authority + WriteTail(r.tail)) }

  function Opening(isConnect: bool): Scan { Scan(if isConnect then ServerStart else BeforeUrl, map[], None, false) }

  function SchemaFields(r: Raw): Fields {
    if r.schema.Some? then map[SchemaField := Span(0, |r.schema.value|)] else map[]
  }

  function AuthorityFields(r: Raw): Fields {
    if r.authority == "" then SchemaFields(r) else SchemaFields(r)[HostField := Span(|RawSchema(r)|, |r.authority|)]
  }

  function TailFields(t: Tail, p: nat, fields: Fields): Fields {
    var q := p + |t.path|;
    var f := q + |WriteQuery(t)|;
    var withPath := if t.path != "" then fields[PathField := Span(p, |t.path|)] else fields;
    var withQuery := if t.query.Some? && t.query.value != "" then withPath[QueryField := Span(q + 1, |t.query.value|)] else withPath;
    if t.fragment.Some? && t.fragment.value != "" then withQuery[FragmentField := Span(f + 1 + t.hashes, |t.fragment.value|)]
    else withQuery
  }

  function RawFields(r: Raw): Fields { TailFields(r.tail, |RawSchema(r)| + |r.authority|, AuthorityFields(r)) }

  lemma SchemaScans(schema: string)
    requires NonEmpty(schema, Letter) && |schema| < WORD
    ensures ScanText(Opening(false), schema, 0)
         == Some(Scan(Schema, map[SchemaField := Span(0, |schema|)], Some(SchemaField), false))
  {
    var a := Opening(false);
    Classes(schema[0]);
    forall i | 0 < i < |schema| ensures NextState(Schema, schema[i]) == Schema { Classes(schema[i]); }
    ClassStays(BeforeUrl, Schema, SchemaField, schema);
    FieldRun(a, SchemaField, schema, 0);
  }

  lemma SlashesScan(a: Scan, p: nat)
    requires Good(a) && a.state.Schema?
    ensures ScanText(a, "://", p) == Some(a.(state := ServerStart))
  {
    hide ScanText;
    SkipByte(a, ':', SchemaSlash, p);
    SkipByte(a.(state := SchemaSlash), '/', SchemaSlashSlash, p + 1);
    SkipByte(a.(state := SchemaSlashSlash), '/', ServerStart, p + 2);
    ScanSplits(a, ":", "/", p);
    assert ":" + "/" == ":/";
    ScanSplits(a, ":/", "/", p);
    assert ":/" + "/" == "://";
  }

  predicate InServer(s: State) { s.ServerStart? || s.Server? || s.ServerWithAt? }

  lemma ServerStep(s: State, c: char)
    requires InServer(s)
    ensures AuthorityChar(c) ==> NextState(s, c) == Server
    ensures c == '@' && !s.ServerWithAt? ==> NextState(s, c) == ServerWithAt
    ensures !AuthorityChar(c) && c != '@' ==>
              NextState(s, c) == if c == '/' then Path else if c == '?' then QueryStart else Dead
    ensures c == '@' && s.ServerWithAt? ==> NextState(s, c) == Dead
  {
    Classes(c);
  }

  /** An authority is one stretch of the host's field, and shows whether there is an `@` in it. */
  lemma {:induction false} ServerStays(s: State, t: string)
    requires InServer(s) && RawAuthority(t) && (s.ServerWithAt? && t != "" ==> t[0] != '@')
    ensures StaysIn(s, HostField, t) && InServer(End(s, t)) && (SeesAt(s, t) <==> '@' in t)
    decreases |t|
  {
    hide NextState, AuthorityChar;
    StretchStep(s, HostField, t);
    if t != "" {
      ServerStep(s, t[0]);
      var rest := t[1..];
      assert t == [t[0]] + rest;
      assert RawAuthority(rest) by {
        forall i | 0 <= i < |rest| ensures AuthorityChar(rest[i]) || rest[i] == '@' { assert rest[i] == t[i + 1]; }
        forall i | 0 < i < |rest| && rest[i] == '@' ensures rest[i - 1] != '@' { assert rest[i] == t[i + 1] && rest[i - 1] == t[i]; }
      }
      if rest != "" { assert rest[0] == t[1]; }
      AtIsNoCharacter(t[0]);
      ServerStays(NextState(s, t[0]), rest);
    }
  }

  lemma AtIsNoCharacter(c: char)
    ensures AuthorityChar(c) ==> c != '@'
  {
  }

  lemma PathScans(a: Scan, path: string, p: nat)
    requires Good(a) && a.last != Some(PathField) && p + |path| < WORD && All(path, PathText)
    requires path != "" ==> NextState(a.state, path[0]) == Path
    ensures ScanText(a, path, p) ==
            Some(if path == "" then a else Scan(Path, a.fields[PathField := Span(p, |path|)], Some(PathField), a.foundAt))
  {
    if path != "" {
      forall i | 0 < i < |path| ensures NextState(Path, path[i]) == Path { PathStep(path[i]); }
      ClassStays(a.state, Path, PathField, path);
      FieldRun(a, PathField, path, p);
    }
  }

  lemma PathStep(c: char)
    ensures PathText(c) ==> NextState(Path, c) == Path
    ensures !PathText(c) ==> NextState(Path, c) == if c == '?' then QueryStart else if c == '#' then FragmentStart else Dead
  {
    Classes(c);
  }

  /** What follows `?`. */
  lemma QueryScans(a: Scan, query: string, p: nat)
    requires Good(a) && a.state.QueryStart? && a.last != Some(QueryField)
    requires All(query, QueryText) && p + |query| < WORD
    ensures ScanText(a, query, p) ==
            Some(if query == "" then a
                 else Scan(Query, a.fields[QueryField := Span(p, |query|)], Some(QueryField), a.foundAt))
  {
    if query != "" {
      QueryStep(QueryStart, query[0]);
      forall i | 0 < i < |query| ensures NextState(Query, query[i]) == Query { QueryStep(Query, query[i]); }
      ClassStays(QueryStart, Query, QueryField, query);
      FieldRun(a, QueryField, query, p);
    }
  }

  lemma QueryStep(s: State, c: char)
    requires s.QueryStart? || s.Query?
    ensures QueryText(c) ==> NextState(s, c) == Query
    ensures !QueryText(c) ==> NextState(s, c) == if c == '#' then FragmentStart else Dead
  {
    Classes(c);
  }

  lemma {:induction false} HashesScan(a: Scan, n: nat, p: nat)
    requires Good(a) && a.state.FragmentStart?
    ensures ScanText(a, Hashes(n), p) == Some(a)
    decreases n
  {
    hide ScanText;
    if n == 0 {
      assert Hashes(0) == "";
      ScanNothing(a, p);
    } else {
      FragmentStep(FragmentStart, '#');
      SkipByte(a, '#', FragmentStart, p);
      HashesScan(a, n - 1, p + 1);
      assert Hashes(n) == "#" + Hashes(n - 1);
      ScanSplits(a, "#", Hashes(n - 1), p);
    }
  }

  /** What follows the first `#`. */
  lemma FragmentScans(a: Scan, hashes: nat, fragment: string, p: nat)
    requires Good(a) && a.state.FragmentStart? && a.last != Some(FragmentField)
    requires All(fragment, FragmentText) && (fragment != "" ==> fragment[0] != '#') && p + hashes + |fragment| < WORD
    ensures ScanText(a, Hashes(hashes) + fragment, p) ==
            Some(if fragment == "" then a
                 else Scan(Fragment, a.fields[FragmentField := Span(p + hashes, |fragment|)], Some(FragmentField), a.foundAt))
  {
    hide ScanText, Hashes;
    HashesScan(a, hashes, p);
    ScanSplits(a, Hashes(hashes), fragment, p);
    HashesLength(hashes);
    if fragment == "" {
      ScanNothing(a, p + hashes);
    } else {
      FragmentStep(FragmentStart, fragment[0]);
      forall i | 0 < i < |fragment| ensures NextState(Fragment, fragment[i]) == Fragment { FragmentStep(Fragment, fragment[i]); }
      ClassStays(FragmentStart, Fragment, FragmentField, fragment);
      FieldRun(a, FragmentField, fragment, p + hashes);
    }
  }

  lemma HashesLength(n: nat)
    ensures |Hashes(n)| == n
  {
  }

  lemma FragmentStep(s: State, c: char)
    requires s.FragmentStart? || s.Fragment?
    ensures FragmentText(c) && (s.FragmentStart? ==> c != '#') ==> NextState(s, c) == Fragment
    ensures s.FragmentStart? && c == '#' ==> NextState(s, c) == FragmentStart
    ensures !FragmentText(c) ==> NextState(s, c) == Dead
  {
    Classes(c);
  }

  lemma ScanNothing(a: Scan, p: nat)
    requires Good(a)
    ensures ScanText(a, "", p) == Some(a)
  {
  }

  /** Where a tail may begin: with a path, or inside an authority. */
  predicate BeforeTail(a: Scan, t: Tail) {
    && a.last in {None, Some(SchemaField), Some(HostField)}
    && (t.path == "" ==> InServer(a.state))
    && (t.path != "" ==> NextState(a.state, t.path[0]) == Path)
  }

  lemma TailScans(t: Tail, a: Scan, p: nat)
    requires TailOk(t) && Good(a) && BeforeTail(a, t) && p + |WriteTail(t)| < WORD
    ensures var r := ScanText(a, WriteTail(t), p);
            r.Some? && r.value.fields == TailFields(t, p, a.fields) && r.value.foundAt == a.foundAt
  {
    hide ScanText, NextState, All, Hashes;
    HashesLength(t.hashes);
    PathScans(a, t.path, p);
    ScanSplits(a, t.path, WriteQuery(t) + WriteFragment(t), p);
    var a1 := ScanText(a, t.path, p).value;
    assert InServer(a1.state) || a1.state.Path?;
    var q := p + |t.path|;
    QueryPartScans(t, a1, q);
    ScanSplits(a1, WriteQuery(t), WriteFragment(t), q);
    var a2 := ScanText(a1, WriteQuery(t), q).value;
    FragmentPartScans(t, a2, q + |WriteQuery(t)|);
  }

  lemma QueryPartScans(t: Tail, a: Scan, q: nat)
    requires TailOk(t) && Good(a) && (InServer(a.state) || a.state.Path?) && q + |WriteQuery(t)| < WORD
    requires a.last != Some(QueryField) && a.last != Some(FragmentField)
    ensures var r := ScanText(a, WriteQuery(t), q);
            && r.Some? && r.value.foundAt == a.foundAt && r.value.last != Some(FragmentField)
            && (if t.query.Some? then r.value.state.QueryStart? || r.value.state.Query? else r.value == a)
            && r.value.fields == if t.query.Some? && t.query.value != "" then a.fields[QueryField := Span(q + 1, |t.query.value|)]
                                 else a.fields
  {
    hide ScanText, All;
    ScanNothing(a, q);
    if t.query.Some? {
      MarkStep(a.state);
      SkipByte(a, '?', QueryStart, q);
      QueryScans(a.(state := QueryStart), t.query.value, q + 1);
      ScanSplits(a, "?", t.query.value, q);
    }
  }

  lemma MarkStep(s: State)
    ensures InServer(s) || s.Path? ==> NextState(s, '?') == QueryStart
    ensures s.Path? || s.QueryStart? || s.Query? ==> NextState(s, '#') == FragmentStart
  {
  }

  lemma FragmentPartScans(t: Tail, a: Scan, p: nat)
    requires TailOk(t) && Good(a) && a.last != Some(FragmentField) && p + |WriteFragment(t)| < WORD
    requires t.fragment.Some? ==> a.state.Path? || a.state.QueryStart? || a.state.Query?
    ensures var r := ScanText(a, WriteFragment(t), p);
            && r.Some? && r.value.foundAt == a.foundAt
            && r.value.fields == if t.fragment.Some? && t.fragment.value != ""
                                 then a.fields[FragmentField := Span(p + 1 + t.hashes, |t.fragment.value|)]
                                 else a.fields
  {
    hide ScanText, All, Hashes;
    HashesLength(t.hashes);
    ScanNothing(a, p);
    if t.fragment.Some? {
      MarkStep(a.state);
      SkipByte(a, '#', FragmentStart, p);
      FragmentScans(a.(state := FragmentStart), t.hashes, t.fragment.value, p + 1);
      ScanSplits(a, "#", Hashes(t.hashes) + t.fragment.value, p);
    }
  }

  lemma AuthorityRun(a: Scan, t: string, p: nat)
    requires Good(a) && a.state.ServerStart? && a.last != Some(HostField) && RawAuthority(t) && p + |t| < WORD
    ensures var r := ScanText(a, t, p);
            && r.Some? && InServer(r.value.state) && r.value.foundAt == (a.foundAt || '@' in t)
            && r.value.last == (if t == "" then a.last else Some(HostField))
            && r.value.fields == if t == "" then a.fields else a.fields[HostField := Span(p, |t|)]
  {
    hide ScanText, NextState, RawAuthority;
    ServerStays(a.state, t);
    if t == "" { ScanNothing(a, p); } else { FieldRun(a, HostField, t, p); }
  }

  lemma SlashStep(s: State)
    ensures InServer(s) || s.BeforeUrl? ==> NextState(s, '/') == Path
    ensures NextState(BeforeUrl, '*') == Path
  {
  }

  /** The URL is scanned exactly into schema, authority, path, query and fragment. */
  lemma UrlScans(r: Raw, isConnect: bool)
    requires RawOk(r, isConnect) && |WriteRaw(r)| < WORD
    ensures var a := ScanText(Opening(isConnect), WriteRaw(r), 0);
            a.Some? && a.value.fields == RawFields(r) && a.value.foundAt == ('@' in r.authority)
  {
    hide ScanText, NextState, WriteTail, TailFields, RawAuthority, NonEmpty, TailOk;
    var a0 := Opening(isConnect);
    var n := |RawSchema(r)|;
    if r.schema.Some? {
      var schema := r.schema.value;
      SchemaScans(schema);
      var a1 := Scan(Schema, SchemaFields(r), Some(SchemaField), false);
      ScanSplits(a0, schema, "://", 0);
      SlashesScan(a1, |schema|);
    } else {
      ScanNothing(a0, 0);
    }
    ScanSplits(a0, RawSchema(r), r.authority + WriteTail(r.tail), 0);
    var a2 := ScanText(a0, RawSchema(r), 0).value;
    if isConnect || r.schema.Some? { AuthorityRun(a2, r.authority, n); } else { ScanNothing(a2, n); }
    ScanSplits(a2, r.authority, WriteTail(r.tail), n);
    var a3 := ScanText(a2, r.authority, n).value;
    SlashStep(a3.state);
    TailScans(r.tail, a3, n + |r.authority|);
  }

  // ----- The authority -----

  lemma {:induction false} HostSplits(a: HostScan, s: string, t: string, p: nat)
    requires GoodHost(a)
    ensures HostText(a, s + t, p) ==
            match HostText(a, s, p)
            case None => None
            case Some(b) => HostText(b, t, p + |s|)
    decreases |s|
  {
    hide HostByte;
    if s == "" {
      assert s + t == t;
    } else {
      assert (s + t)[1..] == s[1..] + t;
      var b := HostByte(a, s[0], p);
      if b.Some? { HostSplits(b.value, s[1..], t, p + 1); }
    }
  }

  lemma OneHostByte(a: HostScan, c: char, p: nat)
    requires GoodHost(a)
    ensures HostText(a, [c], p) == HostByte(a, c, p)
  {
    hide HostByte;
    assert [c][1..] == "";
    var b := HostByte(a, c, p);
    if b.Some? { assert HostText(b.value, "", p + 1) == b; }
  }

  /** The states that collect into one field, byte after byte. */
  function Collects(s: HostState): Option<Field> {
    if s.InHost? || s.InV6? || s.ZoneStart? || s.InZone? then Some(HostField)
    else if s.InPort? then Some(PortField)
    else if s.InUserInfo? then Some(UserInfoField)
    else None
  }

  predicate Loops(s: HostState, t: string) {
    forall i :: 0 <= i < |t| ==> NextHostState(s, t[i]) == s
  }

  lemma {:induction false} HostGrows(a: HostScan, t: string, p: nat)
    requires GoodHost(a) && Collects(a.state).Some? && !a.state.ZoneStart? && Loops(a.state, t)
    requires a.fields[Collects(a.state).value].len + |t| < WORD
    ensures var f := Collects(a.state).value;
            HostText(a, t, p) == Some(a.(fields := a.fields[f := Span(a.fields[f].off, a.fields[f].len + |t|)]))
    decreases |t|
  {
    hide NextHostState;
    var f := Collects(a.state).value;
    if t == "" {
      assert a.fields[f := a.fields[f]] == a.fields;
    } else {
      forall i | 0 <= i < |t[1..]| ensures NextHostState(a.state, t[1..][i]) == a.state { assert t[1..][i] == t[i + 1]; }
      var b := HostByte(a, t[0], p).value;
      HostGrows(b, t[1..], p + 1);
      var span := a.fields[f];
      assert b.fields[f := Span(span.off, span.len + |t|)] == a.fields[f := Span(span.off, span.len + |t|)];
    }
  }

  /** A stretch of one field from its first byte on. */
  lemma HostStretch(a: HostScan, s: HostState, t: string, p: nat)
    requires GoodHost(a) && t != "" && p + |t| < WORD && Collects(s).Some? && !s.ZoneStart? && !s.InZone? && a.state != s
    requires NextHostState(a.state, t[0]) == s && Loops(s, t[1..])
    requires Collects(s) == Some(HostField) ==> a.fields[HostField].len == 0
    ensures HostText(a, t, p) == Some(HostScan(s, a.fields[Collects(s).value := Span(p, |t|)]))
  {
    hide NextHostState;
    var f := Collects(s).value;
    var b := HostByte(a, t[0], p).value;
    HostGrows(b, t[1..], p + 1);
    assert b.fields[f := Span(p, |t|)] == a.fields[f := Span(p, |t|)];
  }

  lemma UserInfoScans(a: HostScan, u: string, p: nat)
    requires GoodHost(a) && a.state.UserInfoStart? && All(u, UserText) && p + |u| < WORD
    ensures HostText(a, u + "@", p) ==
            Some(HostScan(HostStart, if u == "" then a.fields else a.fields[UserInfoField := Span(p, |u|)]))
  {
    hide HostText;
    if u == "" {
      assert u + "@" == "@";
      OneHostByte(a, '@', p);
    } else {
      UserInfoStep(a.state, u[0]);
      forall i | 0 <= i < |u[1..]| ensures NextHostState(InUserInfo, u[1..][i]) == InUserInfo {
        assert u[1..][i] == u[i + 1];
        UserInfoStep(InUserInfo, u[i + 1]);
      }
      HostStretch(a, InUserInfo, u, p);
      var b := HostScan(InUserInfo, a.fields[UserInfoField := Span(p, |u|)]);
      OneHostByte(b, '@', p + |u|);
      HostSplits(a, u, "@", p);
    }
  }

  lemma UserInfoStep(s: HostState, c: char)
    requires s.UserInfoStart? || s.InUserInfo?
    ensures UserText(c) ==> NextHostState(s, c) == InUserInfo
    ensures !UserText(c) ==> NextHostState(s, c) == if c == '@' then HostStart else HostDead
  {
    Classes(c);
  }

  lemma NameScans(a: HostScan, name: string, p: nat)
    requires GoodHost(a) && a.state.HostStart? && a.fields[HostField].len == 0 && NonEmpty(name, NameText) && p + |name| < WORD
    ensures HostText(a, name, p) == Some(HostScan(InHost, a.fields[HostField := Span(p, |name|)]))
  {
    NameStep(HostStart, name[0]);
    forall i | 0 <= i < |name[1..]| ensures NextHostState(InHost, name[1..][i]) == InHost {
      assert name[1..][i] == name[i + 1];
      NameStep(InHost, name[i + 1]);
    }
    HostStretch(a, InHost, name, p);
  }

  lemma NameStep(s: HostState, c: char)
    requires s.HostStart? || s.InHost?
    ensures NameText(c) ==> NextHostState(s, c) == InHost
    ensures !NameText(c) ==> NextHostState(s, c) == if s.HostStart? && c == '[' then V6Start
                                                    else if s.InHost? && c == ':' then PortStart else HostDead
  {
    Classes(c);
  }

  lemma V6Scans(a: HostScan, h: HostPart, p: nat)
    requires GoodHost(a) && a.state.HostStart? && a.fields[HostField].len == 0 && h.V6? && HostOk(h)
    requires p + |WriteHost(h)| < WORD
    ensures HostText(a, WriteHost(h), p) ==
            Some(HostScan(V6End, a.fields[HostField := Span(p + 1, |HostValue(h)|)]))
  {
    hide HostText;
    var s0 := a.(state := V6Start);
    OneHostByte(a, '[', p);
    var n := |h.address|;
    V6Step(V6Start, h.address[0]);
    forall i | 0 <= i < |h.address[1..]| ensures NextHostState(InV6, h.address[1..][i]) == InV6 {
      assert h.address[1..][i] == h.address[i + 1];
      V6Step(InV6, h.address[i + 1]);
    }
    HostStretch(s0, InV6, h.address, p + 1);
    var s1 := HostScan(InV6, a.fields[HostField := Span(p + 1, n)]);
    var s2 := HostScan(if h.zone.Some? then InZone else InV6, a.fields[HostField := Span(p + 1, |HostValue(h)|)]);
    if h.zone.Some? {
      ZoneScans(s1, h.zone.value, p + 1 + n);
      HostSplits(s0, h.address, "%" + h.zone.value, p + 1);
      assert HostValue(h) == h.address + ("%" + h.zone.value);
      assert s2.fields == s1.fields[HostField := Span(p + 1, n + 1 + |h.zone.value|)];
    } else {
      assert HostValue(h) == h.address;
      assert s2 == s1;
    }
    assert HostText(s0, HostValue(h), p + 1) == Some(s2);
    OneHostByte(s2, ']', p + 1 + |HostValue(h)|);
    HostSplits(a, "[", HostValue(h), p);
    HostSplits(a, "[" + HostValue(h), "]", p);
  }

  lemma V6Step(s: HostState, c: char)
    requires s.V6Start? || s.InV6?
    ensures AddressText(c) ==> NextHostState(s, c) == InV6
    ensures !AddressText(c) ==> NextHostState(s, c) == if s.InV6? && c == ']' then V6End
                                                       else if s.InV6? && c == '%' then ZoneStart else HostDead
  {
    Classes(c);
  }

  lemma ZoneScans(a: HostScan, zone: string, p: nat)
    requires GoodHost(a) && a.state.InV6? && NonEmpty(zone, ZoneText) && a.fields[HostField].len + 1 + |zone| < WORD
    ensures HostText(a, "%" + zone, p) ==
            Some(HostScan(InZone, a.fields[HostField := Span(a.fields[HostField].off, a.fields[HostField].len + 1 + |zone|)]))
  {
    hide HostText;
    var span := a.fields[HostField];
    var s1 := HostScan(ZoneStart, a.fields[HostField := Span(span.off, span.len + 1)]);
    OneHostByte(a, '%', p);
    ZoneStep(ZoneStart, zone[0]);
    var s2 := HostScan(InZone, a.fields[HostField := Span(span.off, span.len + 2)]);
    OneHostByte(s1, zone[0], p + 1);
    assert s1.fields[HostField := Span(span.off, span.len + 2)] == s2.fields;
    forall i | 0 <= i < |zone[1..]| ensures NextHostState(InZone, zone[1..][i]) == InZone {
      assert zone[1..][i] == zone[i + 1];
      ZoneStep(InZone, zone[i + 1]);
    }
    HostGrows(s2, zone[1..], p + 2);
    HostSplits(s1, [zone[0]], zone[1..], p + 1);
    assert zone == [zone[0]] + zone[1..];
    HostSplits(a, "%", zone, p);
    assert s2.fields[HostField := Span(span.off, span.len + 1 + |zone|)] == a.fields[HostField := Span(span.off, span.len + 1 + |zone|)];
  }

  lemma ZoneStep(s: HostState, c: char)
    requires s.ZoneStart? || s.InZone?
    ensures ZoneText(c) ==> NextHostState(s, c) == InZone
    ensures !ZoneText(c) ==> NextHostState(s, c) == if s.InZone? && c == ']' then V6End else HostDead
  {
    Classes(c);
  }

  lemma PortScans(a: HostScan, port: string, p: nat)
    requires GoodHost(a) && (a.state.InHost? || a.state.V6End?) && NonEmpty(port, Digit) && p + 1 + |port| < WORD
    ensures HostText(a, ":" + port, p) == Some(HostScan(InPort, a.fields[PortField := Span(p + 1, |port|)]))
  {
    hide HostText;
    var s1 := a.(state := PortStart);
    OneHostByte(a, ':', p);
    PortStep(PortStart, port[0]);
    forall i | 0 <= i < |port[1..]| ensures NextHostState(InPort, port[1..][i]) == InPort {
      assert port[1..][i] == port[i + 1];
      PortStep(InPort, port[i + 1]);
    }
    HostStretch(s1, InPort, port, p + 1);
    HostSplits(a, ":", port, p);
  }

  lemma PortStep(s: HostState, c: char)
    requires s.PortStart? || s.InPort?
    ensures NextHostState(s, c) == if Digit(c) then InPort else HostDead
  {
    Classes(c);
  }

  /** Where the host text proper begins, in an authority at `n`. */
  function HostOffset(a: Authority, n: nat): nat {
    n + |WriteUserInfo(a)| + if a.host.V6? then 1 else 0
  }

  function PortOffset(a: Authority, n: nat): nat {
    n + |WriteUserInfo(a)| + |WriteHost(a.host)| + 1
  }

  /** The fields when the authority at `n` is split. */
  function SplitFields(a: Authority, n: nat, fields: Fields): Fields {
    var withUser := if a.userInfo.Some? && a.userInfo.value != "" then fields[UserInfoField := Span(n, |a.userInfo.value|)]
                    else fields;
    var withHost := withUser[HostField := Span(HostOffset(a, n), |HostValue(a.host)|)];
    if a.port.Some? then withHost[PortField := Span(PortOffset(a, n), |a.port.value|)] else withHost
  }

  /** The authority is scanned piece by piece. */
  lemma AuthorityScans(a: Authority, fields: Fields, n: nat)
    requires AuthorityOk(a) && HostField in fields && n + |WriteAuthority(a)| < WORD
    ensures var start := HostScan(if a.userInfo.Some? then UserInfoStart else HostStart,
                                  fields[HostField := fields[HostField].(len := 0)]);
            var end := HostText(start, WriteAuthority(a), n);
            end.Some? && HostAccepts(end.value.state) && end.value.fields == SplitFields(a, n, fields)
  {
    hide HostText, All, NonEmpty;
    var start := HostScan(if a.userInfo.Some? then UserInfoStart else HostStart,
                          fields[HostField := fields[HostField].(len := 0)]);
    var u := WriteUserInfo(a);
    if a.userInfo.Some? { UserInfoScans(start, a.userInfo.value, n); } else { HostNothing(start, n); }
    var s1 := HostText(start, u, n).value;
    HostSplits(start, u, WriteHost(a.host) + WritePort(a), n);
    var h := n + |u|;
    if a.host.Name? { NameScans(s1, a.host.name, h); } else { V6Scans(s1, a.host, h); }
    HostSplits(s1, WriteHost(a.host), WritePort(a), h);
    var s2 := HostText(s1, WriteHost(a.host), h).value;
    var q := h + |WriteHost(a.host)|;
    if a.port.Some? { PortScans(s2, a.port.value, q); } else { HostNothing(s2, q); }
    var s3 := HostText(s2, WritePort(a), q).value;
    assert s3.fields == SplitFields(a, n, fields);
  }

  lemma HostNothing(a: HostScan, p: nat)
    requires GoodHost(a)
    ensures HostText(a, "", p) == Some(a)
  {
  }

  /** A written authority is some text of the right characters, with an `@` exactly when there is user information. */
  lemma AuthorityIsRaw(a: Authority)
    requires AuthorityOk(a)
    ensures var t := WriteAuthority(a); t != "" && RawAuthority(t) && ('@' in t <==> a.userInfo.Some?)
  {
    var user, host, port := WriteUserInfo(a), WriteHost(a.host), WritePort(a);
    var t := WriteAuthority(a);
    HostIsRaw(a.host);
    PortIsRaw(a);
    if a.userInfo.Some? {
      var u := a.userInfo.value;
      assert t == u + "@" + (host + port);
      assert t[|u|] == '@';
      forall i | 0 <= i < |t| && i != |u| ensures AuthorityChar(t[i]) && t[i] != '@' {
        if i < |u| {
          assert t[i] == u[i];
          AtIsNoCharacter(u[i]);
        } else {
          assert t[i] == (host + port)[i - |u| - 1];
          AtIsNoCharacter(t[i]);
        }
      }
    } else {
      assert t == host + port;
      forall i | 0 <= i < |t| ensures AuthorityChar(t[i]) && t[i] != '@' { AtIsNoCharacter(t[i]); }
    }
  }

  lemma HostIsRaw(h: HostPart)
    requires HostOk(h)
    ensures WriteHost(h) != "" && forall i :: 0 <= i < |WriteHost(h)| ==> AuthorityChar(WriteHost(h)[i])
  {
    var t := WriteHost(h);
    forall i | 0 <= i < |t| ensures AuthorityChar(t[i]) {
      if h.Name? {
        assert NameText(h.name[i]);
      } else if 0 < i < |t| - 1 {
        var v := HostValue(h);
        assert t[i] == v[i - 1];
        if i - 1 < |h.address| {
          assert v[i - 1] == h.address[i - 1] && AddressText(h.address[i - 1]);
        } else if i - 1 > |h.address| {
          assert v[i - 1] == h.zone.value[i - 1 - |h.address| - 1] && ZoneText(v[i - 1]);
        }
      }
    }
  }

  lemma PortIsRaw(a: Authority)
    requires AuthorityOk(a)
    ensures forall i :: 0 <= i < |WritePort(a)| ==> AuthorityChar(WritePort(a)[i])
  {
    if a.port.Some? {
      var t := WritePort(a);
      forall i | 0 <= i < |t| ensures AuthorityChar(t[i]) {
        if i > 0 { assert t[i] == a.port.value[i - 1] && Digit(t[i]); }
      }
    }
  }

  // ----- The round trip -----

  function RawOf(f: Form): Raw { Raw(f.schema, WriteMiddle(f), f.tail) }

  /** All fields of a written URL. */
  function UrlFields(f: Form): Fields {
    if f.authority.Some? then SplitFields(f.authority.value, |WriteSchema(f)|, RawFields(RawOf(f))) else RawFields(RawOf(f))
  }

  lemma RawOfOk(f: Form, isConnect: bool)
    requires FormOk(f, isConnect)
    ensures RawOk(RawOf(f), isConnect) && WriteRaw(RawOf(f)) == WriteUrl(f) && RawSchema(RawOf(f)) == WriteSchema(f)
    ensures '@' in WriteMiddle(f) <==> f.authority.Some? && f.authority.value.userInfo.Some?
    ensures WriteMiddle(f) != "" <==> f.authority.Some?
  {
    hide AuthorityOk, RawAuthority, TailOk, All, WriteAuthority, WriteTail;
    NoAuthority();
    if f.authority.Some? { AuthorityIsRaw(f.authority.value); }
  }

  lemma NoAuthority()
    ensures RawAuthority("")
  {
  }

  lemma RawHostField(r: Raw)
    ensures HostField in RawFields(r) <==> r.authority != ""
    ensures r.authority != "" ==> RawFields(r)[HostField] == Span(|RawSchema(r)|, |r.authority|)
    ensures SchemaField in RawFields(r) <==> r.schema.Some?
    ensures UserInfoField !in RawFields(r) && PortField !in RawFields(r)
  {
    hide WriteQuery;
  }

  /** The written authority is split exactly into its components. */
  lemma AuthorityParses(f: Form)
    requires f.authority.Some? && AuthorityOk(f.authority.value) && |WriteUrl(f)| < 65536
    ensures HostField in RawFields(RawOf(f))
    ensures var span := RawFields(RawOf(f))[HostField]; span.off + span.len <= |WriteUrl(f)|
    ensures ParseHost(WriteUrl(f), RawFields(RawOf(f)), f.authority.value.userInfo.Some?) == Some(UrlFields(f))
  {
    hide HostText, RawFields, SplitFields, WriteTail, WriteAuthority, AuthorityOk, TailOk;
    var buf, a, n := WriteUrl(f), f.authority.value, |WriteSchema(f)|;
    AuthorityIsRaw(a);
    RawHostField(RawOf(f));
    assert buf == WriteSchema(f) + WriteAuthority(a) + WriteTail(f.tail);
    SliceAt(WriteSchema(f), WriteAuthority(a), WriteTail(f.tail));
    AuthorityScans(a, RawFields(RawOf(f)), n);
  }

  lemma SliceAt(before: string, middle: string, after: string)
    ensures (before + middle + after)[|before|..|before| + |middle|] == middle
  {
  }

  function Text(buf: string, fields: Fields, f: Field): Option<string> {
    if f in fields && fields[f].off + fields[f].len <= |buf| then Some(buf[fields[f].off..fields[f].off + fields[f].len])
    else None
  }

  /** Empty components are no fields. */
  function IfAny(s: Option<string>): Option<string> { if s == Some("") then None else s }

  /** Every field of the parsed URL is exactly its component, and absent when there is none. */
  predicate Recovered(f: Form, url: Url)
    requires PortOf(f).Some? ==> AllDigits(PortOf(f).value)
  {
    var buf := WriteUrl(f);
    && Text(buf, url.fields, SchemaField) == f.schema
    && Text(buf, url.fields, UserInfoField) == (if f.authority.Some? then IfAny(f.authority.value.userInfo) else None)
    && Text(buf, url.fields, HostField) == (if f.authority.Some? then Some(HostValue(f.authority.value.host)) else None)
    && Text(buf, url.fields, PortField) == PortOf(f)
    && Text(buf, url.fields, PathField) == IfAny(Some(f.tail.path))
    && Text(buf, url.fields, QueryField) == IfAny(f.tail.query)
    && Text(buf, url.fields, FragmentField) == IfAny(f.tail.fragment)
    && url.port == (if PortOf(f).Some? then DecimalValue(PortOf(f).value) else 0)
  }

  lemma TextAt(buf: string, fields: Fields, f: Field, before: string, middle: string, after: string)
    requires buf == before + middle + after && f in fields && fields[f] == Span(|before|, |middle|)
    ensures Text(buf, fields, f) == Some(middle)
  {
    SliceAt(before, middle, after);
  }

  lemma NoText(buf: string, fields: Fields, f: Field)
    requires f !in fields
    ensures Text(buf, fields, f) == None
  {
  }

  /** Where each field of a written URL lies. */
  lemma UrlSpans(f: Form)
    ensures var fields, n, t := UrlFields(f), |WriteSchema(f)|, f.tail;
            var p := n + |WriteMiddle(f)|;
            && (SchemaField in fields <==> f.schema.Some?)
            && (f.schema.Some? ==> fields[SchemaField] == Span(0, |f.schema.value|))
            && (PathField in fields <==> t.path != "")
            && (t.path != "" ==> fields[PathField] == Span(p, |t.path|))
            && (QueryField in fields <==> t.query.Some? && t.query.value != "")
            && (QueryField in fields ==> fields[QueryField] == Span(p + |t.path| + 1, |t.query.value|))
            && (FragmentField in fields <==> t.fragment.Some? && t.fragment.value != "")
            && (FragmentField in fields ==>
                  fields[FragmentField] == Span(p + |t.path| + |WriteQuery(t)| + 1 + t.hashes, |t.fragment.value|))
  {
    hide WriteAuthority, WriteQuery, HostValue, HostOffset, PortOffset, WriteMiddle, WriteFragment;
  }

  lemma AuthoritySpans(f: Form)
    requires f.authority.Some? ==> WriteMiddle(f) != ""
    ensures var fields, n := UrlFields(f), |WriteSchema(f)|;
            if f.authority.None? then UserInfoField !in fields && HostField !in fields && PortField !in fields
            else
              var a := f.authority.value;
              && (UserInfoField in fields <==> a.userInfo.Some? && a.userInfo.value != "")
              && (UserInfoField in fields ==> fields[UserInfoField] == Span(n, |a.userInfo.value|))
              && HostField in fields && fields[HostField] == Span(HostOffset(a, n), |HostValue(a.host)|)
              && (PortField in fields <==> a.port.Some?)
              && (a.port.Some? ==> fields[PortField] == Span(PortOffset(a, n), |a.port.value|))
  {
    hide WriteAuthority, WriteQuery, HostValue, HostOffset, PortOffset, RawFields;
    RawHostField(RawOf(f));
  }

  lemma AuthorityTexts(f: Form)
    requires f.authority.Some? && WriteMiddle(f) != ""
    ensures var buf, a := WriteUrl(f), f.authority.value;
            && Text(buf, UrlFields(f), UserInfoField) == IfAny(a.userInfo)
            && Text(buf, UrlFields(f), HostField) == Some(HostValue(a.host))
            && Text(buf, UrlFields(f), PortField) == a.port
  {
    hide WriteTail, UrlFields, Text, WriteSchema, HostValue;
    var buf, front, fields, a := WriteUrl(f), WriteSchema(f), UrlFields(f), f.authority.value;
    var user, host, port, tail := WriteUserInfo(a), WriteHost(a.host), WritePort(a), WriteTail(f.tail);
    AuthoritySpans(f);
    assert buf == front + user + host + port + tail;
    if a.userInfo.Some? && a.userInfo.value != "" {
      assert buf == front + a.userInfo.value + ("@" + host + port + tail);
      TextAt(buf, fields, UserInfoField, front, a.userInfo.value, "@" + host + port + tail);
    } else {
      NoText(buf, fields, UserInfoField);
    }
    HostValueText(a, buf, fields, front + user, port + tail);
    if a.port.Some? {
      assert buf == (front + user + host + ":") + a.port.value + tail;
      TextAt(buf, fields, PortField, front + user + host + ":", a.port.value, tail);
    } else {
      NoText(buf, fields, PortField);
    }
  }

  lemma HostValueText(a: Authority, buf: string, fields: Fields, before: string, after: string)
    requires buf == before + WriteHost(a.host) + after
    requires HostField in fields && fields[HostField] == Span(|before| + if a.host.V6? then 1 else 0, |HostValue(a.host)|)
    ensures Text(buf, fields, HostField) == Some(HostValue(a.host))
  {
    hide Text;
    var v := HostValue(a.host);
    if a.host.Name? {
      TextAt(buf, fields, HostField, before, v, after);
    } else {
      hide HostValue;
      assert buf == (before + "[") + v + ("]" + after);
      TextAt(buf, fields, HostField, before + "[", v, "]" + after);
    }
  }

  lemma TailTexts(f: Form)
    ensures var buf, t := WriteUrl(f), f.tail;
            && Text(buf, UrlFields(f), SchemaField) == f.schema
            && Text(buf, UrlFields(f), PathField) == IfAny(Some(t.path))
            && Text(buf, UrlFields(f), QueryField) == IfAny(t.query)
            && Text(buf, UrlFields(f), FragmentField) == IfAny(t.fragment)
  {
    hide WriteUrl, UrlFields, Text, IfAny;
    FrontTexts(f);
    EndTexts(f);
  }

  lemma FrontTexts(f: Form)
    ensures Text(WriteUrl(f), UrlFields(f), SchemaField) == f.schema
    ensures Text(WriteUrl(f), UrlFields(f), PathField) == IfAny(Some(f.tail.path))
  {
    hide WriteMiddle, UrlFields, Text, WriteQuery, WriteFragment;
    var buf, front, fields, t := WriteUrl(f), WriteSchema(f) + WriteMiddle(f), UrlFields(f), f.tail;
    var query, fragment := WriteQuery(t), WriteFragment(t);
    UrlSpans(f);
    assert buf == front + t.path + query + fragment;
    if f.schema.Some? {
      var rest := "://" + (WriteMiddle(f) + WriteTail(t));
      assert buf == "" + f.schema.value + rest;
      TextAt(buf, fields, SchemaField, "", f.schema.value, rest);
    } else {
      NoText(buf, fields, SchemaField);
    }
    if t.path != "" {
      assert buf == front + t.path + (query + fragment);
      TextAt(buf, fields, PathField, front, t.path, query + fragment);
    } else {
      NoText(buf, fields, PathField);
    }
  }

  lemma EndTexts(f: Form)
    ensures Text(WriteUrl(f), UrlFields(f), QueryField) == IfAny(f.tail.query)
    ensures Text(WriteUrl(f), UrlFields(f), FragmentField) == IfAny(f.tail.fragment)
  {
    hide WriteMiddle, WriteSchema, UrlFields, Text, Hashes;
    var buf, front, fields, t := WriteUrl(f), WriteSchema(f) + WriteMiddle(f), UrlFields(f), f.tail;
    var query, fragment := WriteQuery(t), WriteFragment(t);
    UrlSpans(f);
    HashesLength(t.hashes);
    assert buf == front + t.path + query + fragment;
    if t.query.Some? && t.query.value != "" {
      assert buf == (front + t.path + "?") + t.query.value + fragment;
      TextAt(buf, fields, QueryField, front + t.path + "?", t.query.value, fragment);
    } else {
      NoText(buf, fields, QueryField);
    }
    if t.fragment.Some? && t.fragment.value != "" {
      var before := front + t.path + query + "#" + Hashes(t.hashes);
      assert buf == before + t.fragment.value + "";
      TextAt(buf, fields, FragmentField, before, t.fragment.value, "");
    } else {
      NoText(buf, fields, FragmentField);
    }
  }

  /** A `CONNECT` form has the two fields it must have, and no others. */
  lemma ConnectFields(f: Form)
    requires FormOk(f, true)
    ensures UrlFields(f).Keys == {HostField, PortField}
  {
    hide WriteAuthority, WriteQuery, HostValue, HostOffset, PortOffset, AuthorityOk, TailOk, RawAuthority;
    AuthorityIsRaw(f.authority.value);
    UrlSpans(f);
    AuthoritySpans(f);
    hide UrlFields;
    var fields := UrlFields(f);
    forall g ensures g in fields <==> g == HostField || g == PortField {
      match g
      case SchemaField =>
      case UserInfoField =>
      case HostField =>
      case PortField =>
      case PathField =>
      case QueryField =>
      case FragmentField =>
    }
  }

  lemma FinishWritten(f: Form, isConnect: bool, a: Scan)
    requires FormOk(f, isConnect) && |WriteUrl(f)| < 65536
    requires a.fields == RawFields(RawOf(f)) && (f.authority.Some? ==> a.foundAt == f.authority.value.userInfo.Some?)
    requires Text(WriteUrl(f), UrlFields(f), PortField) == PortOf(f)
    requires PortField in UrlFields(f) <==> PortOf(f).Some?
    ensures FinishUrl(WriteUrl(f), isConnect, a)
         == Some(Url(UrlFields(f), if PortOf(f).Some? then DecimalValue(PortOf(f).value) else 0))
  {
    hide ParseHost, WriteUrl, HostOk, All, PortValue, DecimalValue, RawFields, TailOk, SplitFields;
    RawOfOk(f, isConnect);
    RawHostField(RawOf(f));
    if f.authority.Some? { AuthorityParses(f); }
    if isConnect { ConnectFields(f); }
    hide UrlFields;
    if PortOf(f).Some? { PortValueExact(PortOf(f).value); }
  }

  /**
   * Every URL of a form that is asked for, within 65535 bytes, is accepted and read back: its fields are exactly its
   * non-empty components, and the port is the number that is written.
   */
  lemma UrlComesBack(f: Form, isConnect: bool)
    requires FormOk(f, isConnect) && |WriteUrl(f)| < 65536
    ensures PortOf(f).Some? ==> AllDigits(PortOf(f).value)
    ensures ParseUrl(WriteUrl(f), isConnect).Some? && Recovered(f, ParseUrl(WriteUrl(f), isConnect).value)
  {
    hide ScanText, HostText, WriteAuthority, WriteTail, HostOk, ParseHost, RawFields, TailOk, FinishUrl;
    RawOfOk(f, isConnect);
    UrlScans(RawOf(f), isConnect);
    TailTexts(f);
    AuthoritySpans(f);
    if f.authority.Some? {
      AuthorityTexts(f);
    } else {
      NoText(WriteUrl(f), UrlFields(f), UserInfoField);
      NoText(WriteUrl(f), UrlFields(f), HostField);
      NoText(WriteUrl(f), UrlFields(f), PortField);
    }
    NotEmpty(f, isConnect);
    hide UrlFields, Text;
    FinishWritten(f, isConnect, ScanText(Opening(isConnect), WriteUrl(f), 0).value);
  }

  lemma NotEmpty(f: Form, isConnect: bool)
    requires FormOk(f, isConnect)
    ensures WriteUrl(f) != ""
  {
    hide WriteAuthority, AuthorityOk;
    RawOfOk(f, isConnect);
  }
}
