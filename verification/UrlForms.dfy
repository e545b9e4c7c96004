/** The automata accept nothing but the written forms. */
module UrlForms {
  import opened Options
  import opened UrlSpec
  import opened UrlRoundTrip

  // ----- Reading the whole-URL automaton backwards -----

  /** No byte of `t` is refused. */
  predicate Live(s: State, t: string)
    decreases |t|
  {
    t == "" || (!NextState(s, t[0]).Dead? && Live(NextState(s, t[0]), t[1..]))
  }

  /** Some byte of `t` belongs to field `f`. */
  predicate Visits(s: State, t: string, f: Field)
    decreases |t|
  {
    t != "" && (FieldOf(NextState(s, t[0])) == Some(f) || Visits(NextState(s, t[0]), t[1..], f))
  }

  lemma {:induction false} LiveIs(a: Scan, t: string, p: nat)
    requires Good(a)
    ensures ScanText(a, t, p).Some? <==> Live(a.state, t)
    ensures ScanText(a, t, p).Some? ==>
              forall f :: f in ScanText(a, t, p).value.fields <==> f in a.fields || Visits(a.state, t, f)
    decreases |t|
  {
    hide NextState, FieldOf;
    if t != "" {
      var b := ScanByte(a, t[0], p);
      if b.Some? { LiveIs(b.value, t[1..], p + 1); }
    }
  }

  lemma {:induction false} SplitFragment(t: string)
    requires Live(Fragment, t)
    ensures All(t, FragmentText)
    decreases |t|
  {
    hide NextState, FragmentText;
    if t != "" {
      FragmentStep(Fragment, t[0]);
      SplitFragment(t[1..]);
      assert t == [t[0]] + t[1..];
    }
  }

  lemma {:induction false} SplitHashes(t: string) returns (n: nat, text: string)
    requires Live(FragmentStart, t)
    ensures t == Hashes(n) + text && All(text, FragmentText) && (text != "" ==> text[0] != '#')
    decreases |t|
  {
    hide NextState, FragmentText;
    if t == "" {
      n, text := 0, "";
    } else {
      FragmentStep(FragmentStart, t[0]);
      assert t == [t[0]] + t[1..];
      if t[0] == '#' {
        n, text := SplitHashes(t[1..]);
        assert Hashes(n + 1) == "#" + Hashes(n);
        n := n + 1;
      } else {
        SplitFragment(t[1..]);
        n, text := 0, t;
        assert Hashes(0) + t == t;
      }
    }
  }

  lemma {:induction false} SplitQuery(s: State, t: string) returns (q: string, rest: string)
    requires (s.QueryStart? || s.Query?) && Live(s, t)
    ensures t == q + rest && All(q, QueryText)
    ensures rest == "" || (rest[0] == '#' && Live(FragmentStart, rest[1..]))
    decreases |t|
  {
    hide NextState, QueryText;
    if t == "" {
      q, rest := "", "";
    } else {
      QueryStep(s, t[0]);
      if QueryText(t[0]) {
        q, rest := SplitQuery(Query, t[1..]);
        q := [t[0]] + q;
        assert t == [t[0]] + t[1..];
      } else {
        q, rest := "", t;
      }
    }
  }

  /** What may follow a path. */
  predicate BehindPath(rest: string) {
    || rest == ""
    || (rest[0] == '?' && Live(QueryStart, rest[1..]))
    || (rest[0] == '#' && Live(FragmentStart, rest[1..]))
  }

  lemma {:induction false} SplitPath(t: string) returns (path: string, rest: string)
    requires Live(Path, t)
    ensures t == path + rest && All(path, PathText) && BehindPath(rest)
    decreases |t|
  {
    hide NextState, PathText;
    if t == "" {
      path, rest := "", "";
    } else {
      PathStep(t[0]);
      if PathText(t[0]) {
        path, rest := SplitPath(t[1..]);
        path := [t[0]] + path;
        assert t == [t[0]] + t[1..];
      } else {
        path, rest := "", t;
      }
    }
  }

  lemma SplitTail(path: string, rest: string) returns (tail: Tail)
    requires All(path, PathText) && BehindPath(rest) && (path == "" ==> rest == "" || rest[0] == '?')
    ensures TailOk(tail) && tail.path == path && WriteTail(tail) == path + rest
  {
    hide NextState, PathText, QueryText, FragmentText, Hashes;
    var query, after := None, rest;
    if rest != "" && rest[0] == '?' {
      var q, more := SplitQuery(QueryStart, rest[1..]);
      query, after := Some(q), more;
      assert rest == "?" + q + more;
    }
    if after == "" {
      tail := Tail(path, query, None, 0);
    } else {
      var n, text := SplitHashes(after[1..]);
      tail := Tail(path, query, Some(text), n);
      assert after == "#" + (Hashes(n) + text);
    }
  }

  /** What may follow an authority. */
  predicate BehindServer(rest: string) {
    || rest == ""
    || (rest[0] == '/' && Live(Path, rest[1..]))
    || (rest[0] == '?' && Live(QueryStart, rest[1..]))
  }

  lemma {:induction false} SplitServer(s: State, t: string) returns (authority: string, rest: string)
    requires InServer(s) && Live(s, t)
    ensures t == authority + rest && RawAuthority(authority) && BehindServer(rest)
    ensures s.ServerWithAt? && authority != "" ==> authority[0] != '@'
    decreases |t|
  {
    hide NextState, AuthorityChar;
    if t == "" {
      authority, rest := "", "";
    } else {
      ServerStep(s, t[0]);
      AtIsNoCharacter(t[0]);
      if AuthorityChar(t[0]) || t[0] == '@' {
        authority, rest := SplitServer(NextState(s, t[0]), t[1..]);
        OneInFront(t[0], authority);
        authority := [t[0]] + authority;
        assert t == [t[0]] + t[1..];
      } else {
        authority, rest := "", t;
      }
    }
  }

  lemma OneInFront(c: char, t: string)
    requires RawAuthority(t) && (AuthorityChar(c) || c == '@') && (c == '@' && t != "" ==> t[0] != '@')
    ensures RawAuthority([c] + t)
  {
    hide AuthorityChar;
    var u := [c] + t;
    forall i | 0 <= i < |u| ensures AuthorityChar(u[i]) || u[i] == '@' { if i > 0 { assert u[i] == t[i - 1]; } }
    forall i | 0 < i < |u| && u[i] == '@' ensures u[i - 1] != '@' {
      assert u[i] == t[i - 1];
      if i > 1 { assert u[i - 1] == t[i - 2]; }
    }
  }

  lemma SplitBehindServer(rest: string) returns (tail: Tail)
    requires BehindServer(rest)
    ensures TailOk(tail) && WriteTail(tail) == rest && (tail.path != "" ==> tail.path[0] == '/')
  {
    hide NextState, TailOk, WriteTail;
    if rest != "" && rest[0] == '/' {
      var path, more := SplitPath(rest[1..]);
      SlashIsPath(path);
      tail := SplitTail("/" + path, more);
      assert rest == "/" + path + more;
    } else {
      NoPath();
      tail := SplitTail("", rest);
      assert "" + rest == rest;
    }
  }

  lemma NoPath()
    ensures All("", PathText)
  {
  }

  lemma SlashIsPath(path: string)
    requires All(path, PathText)
    ensures All("/" + path, PathText) && All("*" + path, PathText)
  {
  }

  lemma {:induction false} SplitSchema(t: string) returns (letters: string, rest: string)
    requires Live(Schema, t)
    ensures t == letters + rest && All(letters, Letter)
    ensures rest == "" || (rest[0] == ':' && Live(SchemaSlash, rest[1..]))
    ensures forall f :: f != SchemaField ==> (Visits(Schema, t, f) ==> rest != "" && Visits(SchemaSlash, rest[1..], f))
    decreases |t|
  {
    hide Letter;
    if t == "" {
      letters, rest := "", "";
    } else {
      Classes(t[0]);
      if Letter(t[0]) {
        letters, rest := SplitSchema(t[1..]);
        letters := [t[0]] + letters;
        assert t == [t[0]] + t[1..];
      } else {
        letters, rest := "", t;
      }
    }
  }

  /** Behind a schema's colon: two slashes, if the text gets as far as a host. */
  lemma TwoSlashes(t: string)
    requires Live(SchemaSlash, t) && Visits(SchemaSlash, t, HostField)
    ensures |t| >= 2 && t[..2] == "//" && Live(ServerStart, t[2..])
  {
    assert t != "";
    assert t[1..] != "";
    assert t[1..][1..] == t[2..];
  }

  /** What a text that is not refused consists of; one that stops inside `schema://` has no host. */
  lemma SplitRaw(buf: string, isConnect: bool) returns (r: Raw)
    requires buf != "" && Live(Opening(isConnect).state, buf)
    requires Visits(Opening(isConnect).state, buf, SchemaField) ==> Visits(Opening(isConnect).state, buf, HostField)
    ensures RawOk(r, isConnect) && WriteRaw(r) == buf
  {
    hide Live, Visits, TailOk, WriteTail, RawAuthority, All, NonEmpty, Letter, BehindServer, BehindPath;
    NoAuthority();
    if isConnect {
      var authority, rest := SplitServer(ServerStart, buf);
      var tail := SplitBehindServer(rest);
      r := Raw(None, authority, tail);
      assert "" + (authority + rest) == buf;
    } else {
      FirstByte(buf);
      if Letter(buf[0]) {
        var letters, rest := SplitSchema(buf[1..]);
        TwoSlashes(rest[1..]);
        var authority, more := SplitServer(ServerStart, rest[1..][2..]);
        var tail := SplitBehindServer(more);
        LettersInFront(buf[0], letters);
        r := Raw(Some([buf[0]] + letters), authority, tail);
        assert rest == ":" + rest[1..] && rest[1..] == rest[1..][..2] + rest[1..][2..];
        assert buf == [buf[0]] + letters + "://" + (authority + more);
      } else {
        var path, rest := SplitPath(buf[1..]);
        SlashIsPath(path);
        var tail := SplitTail([buf[0]] + path, rest);
        r := Raw(None, "", tail);
        assert buf == [buf[0]] + path + rest;
        assert "" + ("" + buf) == buf;
      }
    }
  }

  lemma LettersInFront(c: char, letters: string)
    requires Letter(c) && All(letters, Letter)
    ensures NonEmpty([c] + letters, Letter)
  {
  }

  /** How a URL may begin that is not one of a `CONNECT`. */
  lemma FirstByte(buf: string)
    requires buf != "" && Live(BeforeUrl, buf)
    requires Visits(BeforeUrl, buf, SchemaField) ==> Visits(BeforeUrl, buf, HostField)
    ensures if Letter(buf[0]) then Live(Schema, buf[1..]) && Visits(Schema, buf[1..], HostField)
            else (buf[0] == '/' || buf[0] == '*') && Live(Path, buf[1..])
  {
    Classes(buf[0]);
    assert NextState(BeforeUrl, buf[0]) in {Schema, Path};
  }

  // ----- Reading the authority's automaton backwards -----

  function HostEnd(s: HostState, t: string): HostState
    decreases |t|
  {
    if t == "" then s else HostEnd(NextHostState(s, t[0]), t[1..])
  }

  lemma {:induction false} DeadStays(t: string)
    ensures HostEnd(HostDead, t) == HostDead
    decreases |t|
  {
    if t != "" { DeadStays(t[1..]); }
  }

  lemma {:induction false} HostEndIs(a: HostScan, t: string, p: nat)
    requires GoodHost(a) && !a.state.HostDead?
    ensures HostText(a, t, p).Some? <==> !HostEnd(a.state, t).HostDead?
    ensures HostText(a, t, p).Some? ==> HostText(a, t, p).value.state == HostEnd(a.state, t)
    decreases |t|
  {
    hide NextHostState;
    if t != "" {
      var b := HostByte(a, t[0], p);
      if b.Some? { HostEndIs(b.value, t[1..], p + 1); } else { DeadStays(t[1..]); }
    }
  }

  lemma {:induction false} SplitDigits(s: HostState, t: string)
    requires (s.PortStart? || s.InPort?) && HostAccepts(HostEnd(s, t))
    ensures All(t, Digit) && (s.PortStart? ==> t != "")
    decreases |t|
  {
    hide Digit;
    if t != "" {
      PortStep(s, t[0]);
      if !Digit(t[0]) { DeadStays(t[1..]); }
      SplitDigits(InPort, t[1..]);
      assert t == [t[0]] + t[1..];
    }
  }

  /** What may follow a host: nothing, or a port of at least one digit. */
  predicate PortPart(rest: string, port: Option<string>) {
    rest == (if port.Some? then ":" + port.value else "") && (port.Some? ==> NonEmpty(port.value, Digit))
  }

  lemma SplitPort(s: HostState, t: string) returns (port: Option<string>)
    requires s.V6End? || (s.InHost? && (t == "" || !NameText(t[0])))
    requires HostAccepts(HostEnd(s, t))
    ensures PortPart(t, port)
  {
    if t == "" {
      port := None;
    } else {
      NameStep(InHost, t[0]);
      if t[0] != ':' { DeadStays(t[1..]); }
      SplitDigits(PortStart, t[1..]);
      port := Some(t[1..]);
      assert t == ":" + t[1..];
    }
  }

  lemma {:induction false} SplitName(t: string) returns (name: string, rest: string)
    requires HostAccepts(HostEnd(InHost, t))
    ensures t == name + rest && All(name, NameText) && (rest == "" || !NameText(rest[0]))
    ensures HostAccepts(HostEnd(InHost, rest))
    decreases |t|
  {
    hide NameText;
    if t == "" {
      name, rest := "", "";
    } else {
      NameStep(InHost, t[0]);
      if NameText(t[0]) {
        name, rest := SplitName(t[1..]);
        name := [t[0]] + name;
        assert t == [t[0]] + t[1..];
      } else {
        name, rest := "", t;
      }
    }
  }

  lemma {:induction false} SplitZone(s: HostState, t: string) returns (zone: string, rest: string)
    requires (s.ZoneStart? || s.InZone?) && HostAccepts(HostEnd(s, t))
    ensures t == zone + "]" + rest && All(zone, ZoneText) && (s.ZoneStart? ==> zone != "")
    ensures HostAccepts(HostEnd(V6End, rest))
    decreases |t|
  {
    hide ZoneText;
    ZoneStep(s, t[0]);
    assert t == [t[0]] + t[1..];
    if ZoneText(t[0]) {
      zone, rest := SplitZone(InZone, t[1..]);
      zone := [t[0]] + zone;
    } else {
      if s.ZoneStart? || t[0] != ']' { DeadStays(t[1..]); }
      zone, rest := "", t[1..];
    }
  }

  lemma {:induction false} SplitAddress(s: HostState, t: string) returns (address: string, zone: Option<string>, rest: string)
    requires (s.V6Start? || s.InV6?) && HostAccepts(HostEnd(s, t))
    ensures t == address + (if zone.Some? then "%" + zone.value else "") + "]" + rest
    ensures All(address, AddressText) && (s.V6Start? ==> address != "") && (zone.Some? ==> NonEmpty(zone.value, ZoneText))
    ensures HostAccepts(HostEnd(V6End, rest))
    decreases |t|
  {
    hide AddressText, ZoneText;
    V6Step(s, t[0]);
    assert t == [t[0]] + t[1..];
    if AddressText(t[0]) {
      address, zone, rest := SplitAddress(InV6, t[1..]);
      address := [t[0]] + address;
    } else if s.InV6? && t[0] == ']' {
      address, zone, rest := "", None, t[1..];
    } else if s.InV6? && t[0] == '%' {
      var z, more := SplitZone(ZoneStart, t[1..]);
      address, zone, rest := "", Some(z), more;
    } else {
      DeadStays(t[1..]);
    }
  }

  lemma SplitHost(t: string) returns (host: HostPart, port: Option<string>)
    requires HostAccepts(HostEnd(HostStart, t))
    ensures HostOk(host) && t == WriteHost(host) + (if port.Some? then ":" + port.value else "")
    ensures port.Some? ==> NonEmpty(port.value, Digit)
  {
    hide NameText, AddressText, ZoneText, Digit;
    assert t != "";
    NameStep(HostStart, t[0]);
    assert t == [t[0]] + t[1..];
    if NameText(t[0]) {
      var name, rest := SplitName(t[1..]);
      port := SplitPort(InHost, rest);
      host := Name([t[0]] + name);
    } else if t[0] == '[' {
      var address, zone, rest := SplitAddress(V6Start, t[1..]);
      port := SplitPort(V6End, rest);
      host := V6(address, zone);
      BracketIsNoName();
    } else {
      DeadStays(t[1..]);
    }
  }

  lemma BracketIsNoName()
    ensures !NameText('[')
  {
  }

  lemma {:induction false} SplitUserInfo(s: HostState, t: string) returns (u: string, rest: string)
    requires (s.UserInfoStart? || s.InUserInfo?) && HostAccepts(HostEnd(s, t))
    ensures t == u + "@" + rest && All(u, UserText) && HostAccepts(HostEnd(HostStart, rest))
    decreases |t|
  {
    hide UserText;
    UserInfoStep(s, t[0]);
    assert t == [t[0]] + t[1..];
    if UserText(t[0]) {
      u, rest := SplitUserInfo(InUserInfo, t[1..]);
      u := [t[0]] + u;
    } else {
      if t[0] != '@' { DeadStays(t[1..]); }
      u, rest := "", t[1..];
    }
  }

  /** An authority that is accepted has the written form; its port is only known to be digits. */
  lemma SplitAuthority(t: string) returns (a: Authority)
    requires HostAccepts(HostEnd(if '@' in t then UserInfoStart else HostStart, t))
    ensures WriteAuthority(a) == t && HostOk(a.host) && (a.port.Some? ==> NonEmpty(a.port.value, Digit))
    ensures a.userInfo.Some? ==> All(a.userInfo.value, UserText)
  {
    hide HostOk, WriteHost;
    if '@' in t {
      var u, rest := SplitUserInfo(UserInfoStart, t);
      var host, port := SplitHost(rest);
      a := Authority(Some(u), host, port);
    } else {
      var host, port := SplitHost(t);
      a := Authority(None, host, port);
      assert "" + t == t;
    }
  }

  // ----- What is accepted -----

  /** The authority of an accepted URL. */
  lemma AcceptedAuthority(buf: string, r: Raw) returns (a: Authority)
    requires WriteRaw(r) == buf && |buf| < WORD && r.authority != ""
    requires HostField in RawFields(r) && RawFields(r)[HostField].off + RawFields(r)[HostField].len <= |buf|
    requires ParseHost(buf, RawFields(r), '@' in r.authority).Some?
    ensures WriteAuthority(a) == r.authority && AuthorityOk(a)
  {
    hide RawFields, WriteTail, WriteAuthority, HostOk, ParseHost, All;
    RawHostField(r);
    var n, t := |RawSchema(r)|, r.authority;
    assert buf == RawSchema(r) + t + WriteTail(r.tail);
    SliceAt(RawSchema(r), t, WriteTail(r.tail));
    ParsedHostEnds(buf, RawFields(r), '@' in t);
    a := SplitAuthority(t);
  }

  lemma ParsedHostEnds(buf: string, fields: Fields, foundAt: bool)
    requires HostField in fields && fields[HostField].off + fields[HostField].len <= |buf|
    requires ParseHost(buf, fields, foundAt).Some?
    ensures var span := fields[HostField];
            HostAccepts(HostEnd(if foundAt then UserInfoStart else HostStart, buf[span.off..span.off + span.len]))
  {
    hide HostText, HostEnd;
    var span := fields[HostField];
    var start := HostScan(if foundAt then UserInfoStart else HostStart, fields[HostField := span.(len := 0)]);
    HostEndIs(start, buf[span.off..span.off + span.len], span.off);
  }

  lemma ScanOf(buf: string, isConnect: bool)
    requires |buf| < WORD && ParseUrl(buf, isConnect).Some?
    ensures buf != "" && ScanText(Opening(isConnect), buf, 0).Some?
    ensures FinishUrl(buf, isConnect, ScanText(Opening(isConnect), buf, 0).value).Some?
  {
    hide ScanText, FinishUrl;
  }

  /** The scan of an accepted URL has a host if it has a schema, and then its authority can be split. */
  lemma FinishedRaw(buf: string, isConnect: bool) returns (r: Raw)
    requires |buf| < WORD && ParseUrl(buf, isConnect).Some?
    ensures RawOk(r, isConnect) && WriteRaw(r) == buf
    ensures var a := ScanText(Opening(isConnect), buf, 0);
            a.Some? && FinishUrl(buf, isConnect, a.value).Some?
            && a.value.fields == RawFields(r) && a.value.foundAt == ('@' in r.authority)
  {
    hide ScanText, RawFields, RawOk, WriteRaw, Live, Visits;
    ScanOf(buf, isConnect);
    LiveIs(Opening(isConnect), buf, 0);
    SchemaNeedsHost(buf, isConnect, ScanText(Opening(isConnect), buf, 0).value);
    r := SplitRaw(buf, isConnect);
    UrlScans(r, isConnect);
  }

  lemma SchemaNeedsHost(buf: string, isConnect: bool, a: Scan)
    requires FinishUrl(buf, isConnect, a).Some?
    ensures SchemaField in a.fields ==> HostField in a.fields
    ensures HostField in a.fields ==>
              a.fields[HostField].off + a.fields[HostField].len <= |buf| && ParseHost(buf, a.fields, a.foundAt).Some?
    ensures isConnect ==> HostField in a.fields && ParseHost(buf, a.fields, a.foundAt).value.Keys == {HostField, PortField}
  {
    hide ParseHost, PortValue;
    assert HostField !in a.fields ==> HostField !in a.fields.Keys;
  }

  /** A port that was read is a number of 16 bits. */
  lemma PortIsSmall(buf: string, isConnect: bool, a: Scan, fields: Fields, port: string)
    requires FinishUrl(buf, isConnect, a).Some? && HostField in a.fields
    requires a.fields[HostField].off + a.fields[HostField].len <= |buf| && ParseHost(buf, a.fields, a.foundAt) == Some(fields)
    requires Text(buf, fields, PortField) == Some(port) && AllDigits(port)
    ensures DecimalValue(port) <= 65535
  {
    hide ParseHost, PortValue, DecimalValue;
    PortValueExact(port);
  }

  lemma DigitsAre(port: string)
    requires All(port, Digit)
    ensures AllDigits(port)
  {
    forall i | 0 <= i < |port| ensures Num(port[i]) { assert Digit(port[i]); }
  }

  /** The fields a `CONNECT` may have leave no room for anything but host and port. */
  lemma OnlyHostAndPort(f: Form)
    requires f.authority.Some? && WriteMiddle(f) != "" && TailOk(f.tail) && UrlFields(f).Keys == {HostField, PortField}
    ensures f.authority.value.port.Some? && Bare(f.tail)
    ensures f.authority.value.userInfo.Some? ==> f.authority.value.userInfo.value == ""
  {
    hide UrlFields, WriteMiddle, TailOk;
    UrlSpans(f);
    AuthoritySpans(f);
    assert PortField in UrlFields(f).Keys;
    assert UserInfoField !in UrlFields(f).Keys && PathField !in UrlFields(f).Keys;
    assert QueryField !in UrlFields(f).Keys && FragmentField !in UrlFields(f).Keys;
  }

  /** The form of an accepted URL with an authority. */
  lemma WithAuthority(buf: string, isConnect: bool, r: Raw) returns (f: Form)
    requires |buf| < WORD && RawOk(r, isConnect) && WriteRaw(r) == buf && r.authority != ""
    requires var a := ScanText(Opening(isConnect), buf, 0);
             a.Some? && FinishUrl(buf, isConnect, a.value).Some?
             && a.value.fields == RawFields(r) && a.value.foundAt == ('@' in r.authority)
    ensures FormOk(f, isConnect) && WriteUrl(f) == buf
  {
    hide ScanText, RawFields, FinishUrl, ParseHost, TailOk, RawAuthority, AuthorityOk, WriteAuthority, WriteTail, NonEmpty;
    hide UrlFields, PortOk, Text, Bare;
    var a := ScanText(Opening(isConnect), buf, 0).value;
    RawHostField(r);
    SchemaNeedsHost(buf, isConnect, a);
    var authority := AcceptedAuthority(buf, r);
    f := Form(r.schema, Some(authority), r.tail);
    assert RawOf(f) == r && WriteUrl(f) == buf;
    AuthorityIsRaw(authority);
    AuthorityParses(f);
    AuthorityTexts(f);
    if authority.port.Some? { PortFits(buf, isConnect, a, UrlFields(f), authority.port.value, authority); }
    if isConnect { OnlyHostAndPort(f); }
  }

  lemma PortFits(buf: string, isConnect: bool, a: Scan, fields: Fields, port: string, authority: Authority)
    requires AuthorityOk(authority) && authority.port == Some(port)
    requires FinishUrl(buf, isConnect, a).Some? && HostField in a.fields
    requires a.fields[HostField].off + a.fields[HostField].len <= |buf| && ParseHost(buf, a.fields, a.foundAt) == Some(fields)
    requires Text(buf, fields, PortField) == Some(port)
    ensures PortOk(port)
  {
    hide ParseHost, FinishUrl, Text, DecimalValue, HostOk;
    DigitsAre(port);
    PortIsSmall(buf, isConnect, a, fields, port);
  }

  /** Every accepted URL of up to 65535 bytes has one of the forms that are asked for. */
  lemma OnlyForms(buf: string, isConnect: bool) returns (f: Form)
    requires |buf| < 65536 && ParseUrl(buf, isConnect).Some?
    ensures FormOk(f, isConnect) && WriteUrl(f) == buf
  {
    hide ScanText, RawFields, FinishUrl, ParseHost, TailOk, RawAuthority, WriteTail, NonEmpty, ParseUrl;
    var r := FinishedRaw(buf, isConnect);
    if r.authority != "" {
      f := WithAuthority(buf, isConnect, r);
    } else {
      RawHostField(r);
      SchemaNeedsHost(buf, isConnect, ScanText(Opening(isConnect), buf, 0).value);
      f := Form(r.schema, None, r.tail);
    }
  }

  /** The accepted texts of up to 65535 bytes are exactly the written forms, and the fields are those of the form. */
  lemma AcceptedExactly(buf: string, isConnect: bool)
    requires |buf| < 65536
    ensures ParseUrl(buf, isConnect).Some? <==> exists f :: FormOk(f, isConnect) && WriteUrl(f) == buf
    ensures forall f :: FormOk(f, isConnect) && WriteUrl(f) == buf ==>
              ParseUrl(buf, isConnect).Some? && Recovered(f, ParseUrl(buf, isConnect).value)
  {
    hide ParseUrl, FormOk, WriteUrl, Recovered;
    if ParseUrl(buf, isConnect).Some? {
      var f := OnlyForms(buf, isConnect);
    }
    forall f | FormOk(f, isConnect) && WriteUrl(f) == buf
      ensures PortOf(f).Some? ==> AllDigits(PortOf(f).value)
      ensures ParseUrl(buf, isConnect).Some? && Recovered(f, ParseUrl(buf, isConnect).value)
    {
      UrlComesBack(f, isConnect);
    }
  }
}
