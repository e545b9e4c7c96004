/** The loops of the URL parser, over the fields they fill in. */
module UrlParser {
  import opened Options
  import opened UrlSpec
  import opened UrlStructure

  class HttpParserUrl {
    var fields: Fields
    var port: nat

    constructor ()
      ensures fields == map[] && port == 0
    {
      fields, port := map[], 0;
    }

    /** One byte of the authority, which takes the host automaton from `s` to `next`. */
    method CollectHostByte(s: HostState, next: HostState, p: nat)
      requires GoodHost(HostScan(s, fields))
      modifies this`fields
      ensures forall c :: NextHostState(s, c) == next && !next.HostDead? ==>
                HostByte(HostScan(s, old(fields)), c, p) == Some(HostScan(next, fields))
    {
      hide NextHostState;
      if next.InHost? {
        if !s.InHost? { fields := fields[HostField := fields[HostField].(off := p % WORD)]; }
        fields := Grow(fields, HostField);
      } else if next.InV6? {
        if !s.InV6? { fields := fields[HostField := fields[HostField].(off := p % WORD)]; }
        fields := Grow(fields, HostField);
      } else if next.ZoneStart? || next.InZone? {
        fields := Grow(fields, HostField);
      } else if next.InPort? {
        if !s.InPort? { fields := fields[PortField := Span(p % WORD, 0)]; }
        fields := Grow(fields, PortField);
        assert !s.InPort? ==> fields == Open(old(fields), PortField, p, 1);
      } else if next.InUserInfo? {
        if !s.InUserInfo? { fields := fields[UserInfoField := Span(p % WORD, 0)]; }
        fields := Grow(fields, UserInfoField);
        assert !s.InUserInfo? ==> fields == Open(old(fields), UserInfoField, p, 1);
      }
    }

    /** Splits the authority into user info, host and port; false when it is not one. */
    method SplitHost(buf: string, foundAt: bool) returns (ok: bool)
      requires HostField in fields && fields[HostField].off + fields[HostField].len <= |buf|
      modifies this`fields
      ensures ok <==> ParseHost(buf, old(fields), foundAt).Some?
      ensures ok ==> ParseHost(buf, old(fields), foundAt) == Some(fields)
    {
      hide HostByte;
      var start := fields[HostField].off;
      var end := start + fields[HostField].len;
      fields := fields[HostField := fields[HostField].(len := 0)];
      var s := if foundAt then UserInfoStart else HostStart;
      ghost var text := buf[start..end];
      ghost var result := HostText(HostScan(s, fields), text, start);
      var p := start;
      while p < end
        invariant start <= p <= end && GoodHost(HostScan(s, fields))
        invariant HostText(HostScan(s, fields), buf[p..end], p) == result
      {
        assert buf[p..end][1..] == buf[p + 1..end];
        var next := NextHostState(s, buf[p]);
        HostDies(HostScan(s, fields), buf[p], p);
        if next.HostDead? { return false; }
        CollectHostByte(s, next, p);
        s := next;
        p := p + 1;
      }
      ok := HostAccepts(s);
    }

    /** The decimal port; false when it needs more than 16 bits. */
    method ReadPort(buf: string) returns (ok: bool)
      requires PortField in fields && fields[PortField].off + fields[PortField].len <= |buf|
      requires forall k :: fields[PortField].off <= k < fields[PortField].off + fields[PortField].len ==> Num(buf[k])
      modifies this`port
      ensures var v := PortValue(buf[fields[PortField].off..fields[PortField].off + fields[PortField].len]);
              (ok <==> v.Some?) && (ok ==> v == Some(port))
      ensures var text := buf[fields[PortField].off..fields[PortField].off + fields[PortField].len];
              AllDigits(text) && (ok <==> DecimalValue(text) <= 0xffff) && (ok ==> port == DecimalValue(text))
    {
      var start := fields[PortField].off;
      var end := start + fields[PortField].len;
      var v, p := 0, start;
      hide DecimalValue;
      PortValueExact(buf[start..end]);
      while p < end
        invariant start <= p <= end && PortValue(buf[start..p]) == Some(v)
      {
        v := v * 10;
        v := v + (buf[p] - '0') as nat;
        assert buf[start..p + 1][..p - start] == buf[start..p];
        if v > 0xffff {
          TooLongPort(buf[start..p + 1], buf[p + 1..end]);
          assert buf[start..end] == buf[start..p + 1] + buf[p + 1..end];
          return false;
        }
        p := p + 1;
      }
      port := v;
      ok := true;
    }

    /** Marks the fields of the whole URL, the authority still in one piece; false when a byte is refused. */
    method ScanFields(buf: string, isConnect: bool) returns (ok: bool, foundAt: bool)
      requires |buf| < WORD
      modifies this`fields
      ensures ok <==> ScanText(Start(isConnect), buf, 0).Some?
      ensures ok ==> var a := ScanText(Start(isConnect), buf, 0).value; a.fields == fields && a.foundAt == foundAt
    {
      hide NextState;
      fields, foundAt := map[], false;
      var s := if isConnect then ServerStart else BeforeUrl;
      var last: Option<Field> := None;
      ghost var result := ScanText(Start(isConnect), buf, 0);
      var p := 0;
      assert buf[0..] == buf;
      while p < |buf|
        invariant p <= |buf| && Good(Scan(s, fields, last, foundAt))
        invariant ScanText(Scan(s, fields, last, foundAt), buf[p..], p) == result
      {
        assert buf[p..][1..] == buf[p + 1..];
        s := NextState(s, buf[p]);
        if s.Dead? { return false, foundAt; }
        if s.ServerWithAt? { foundAt := true; }
        var field := FieldOf(s);
        if field.Some? {
          if field == last {
            fields := Grow(fields, field.value);
          } else {
            fields := fields[field.value := Span(p % WORD, 1)];
            last := field;
          }
        }
        p := p + 1;
      }
      assert result == Some(Scan(s, fields, last, foundAt));
      ok := true;
    }

    /** Fills in the fields and the port; false when `buf` is not a URL. */
    method Parse(buf: string, isConnect: bool) returns (ok: bool)
      requires |buf| < WORD
      modifies this
      ensures ok <==> ParseUrl(buf, isConnect).Some?
      ensures ok ==> ParseUrl(buf, isConnect) == Some(Url(fields, port))
    {
      hide ParseHost, PortValue, ScanText;
      if buf == "" { return false; }
      port := 0;
      var foundAt;
      ok, foundAt := ScanFields(buf, isConnect);
      if !ok { return; }
      FieldsStayInside(buf, isConnect);
      if SchemaField in fields && HostField !in fields { return false; }
      if HostField in fields {
        ok := SplitHost(buf, foundAt);
        if !ok { return; }
      }
      if isConnect && fields.Keys != {HostField, PortField} { return false; }
      if PortField in fields { ok := ReadPort(buf); }
    }
  }

  lemma HostDies(a: HostScan, c: char, p: nat)
    requires GoodHost(a)
    ensures NextHostState(a.state, c).HostDead? <==> HostByte(a, c, p).None?
  {
    hide NextHostState;
  }

  /** A port that has grown too large stays too large. */
  lemma {:induction false} TooLongPort(front: string, rest: string)
    requires PortValue(front).None?
    ensures PortValue(front + rest).None?
    decreases |rest|
  {
    if rest == "" {
      assert front + rest == front;
    } else {
      var n := |front + rest| - 1;
      TooLongPort(front, rest[..|rest| - 1]);
      assert (front + rest)[..n] == front + rest[..|rest| - 1];
    }
  }
}
