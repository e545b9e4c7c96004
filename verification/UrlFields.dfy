/** What every accepted URL looks like: its fields are ordered, disjoint, non-empty slices of it. */
module UrlStructure {
  import opened Options
  import opened UrlSpec

  /** The left-to-right order of the fields. */
  function Order(f: Field): nat {
    match f
    case SchemaField => 0
    case UserInfoField => 1
    case HostField => 2
    case PortField => 3
    case PathField => 4
    case QueryField => 5
    case FragmentField => 6
  }

  predicate Slices(fields: Fields, n: nat) {
    forall f :: f in fields ==> 0 < fields[f].len && fields[f].off + fields[f].len <= n
  }

  predicate InOrder(fields: Fields) {
    forall f, g :: f in fields && g in fields && Order(f) < Order(g) ==> fields[f].off + fields[f].len <= fields[g].off
  }

  // ----- The authority of a URL, read off the text alone -----

  predicate EndsAuthority(c: char) { c == '/' || c == '?' }

  function AuthorityEnd(buf: string, i: nat): (j: nat)
    requires i <= |buf|
    ensures i <= j <= |buf|
    decreases |buf| - i
  {
    if i == |buf| || EndsAuthority(buf[i]) then i else AuthorityEnd(buf, i + 1)
  }

  /** Behind `schema://`, or at the very start when there is no schema. */
  function AuthorityStart(fields: Fields): nat {
    if SchemaField in fields then fields[SchemaField].len + 3 else 0
  }

  function AtCount(t: string): nat {
    if t == "" then 0 else (if t[0] == '@' then 1 else 0) + AtCount(t[1..])
  }

  lemma {:induction false} AuthorityEndIs(buf: string, i: nat, j: nat)
    requires i <= j <= |buf|
    requires forall k :: i <= k < j ==> !EndsAuthority(buf[k])
    requires j == |buf| || EndsAuthority(buf[j])
    ensures AuthorityEnd(buf, i) == j
    decreases j - i
  {
    if i < j { AuthorityEndIs(buf, i + 1, j); }
  }

  // ----- The whole-URL scan -----

  /** Odd ranks collect the field `Order` names, even ones are between fields. */
  function Rank(s: State): nat {
    match s
    case BeforeUrl => 0
    case Schema => 1
    case SchemaSlash => 2
    case SchemaSlashSlash => 2
    case ServerStart => 2
    case Server => 5
    case ServerWithAt => 5
    case Path => 9
    case QueryStart => 10
    case Query => 11
    case FragmentStart => 12
    case Fragment => 13
    case Dead => 14
  }

  lemma RankRises(s: State, c: char)
    ensures Rank(s) <= Rank(NextState(s, c))
    ensures NextState(s, c).BeforeUrl? ==> false
    ensures NextState(s, c).SchemaSlash? ==> s.Schema?
    ensures NextState(s, c).SchemaSlashSlash? ==> s.SchemaSlash?
    ensures NextState(s, c).ServerStart? ==> s.SchemaSlashSlash?
    ensures NextState(s, c).Schema? ==> s.BeforeUrl? || s.Schema?
    ensures Rank(NextState(s, c)) == 5 ==> (s.ServerStart? || Rank(s) == 5) && !EndsAuthority(c)
    ensures Rank(s) == 5 < Rank(NextState(s, c)) < 14 ==> EndsAuthority(c)
  {
  }

  lemma RankOfField(s: State)
    ensures FieldOf(s).Some? ==> Rank(s) == 2 * Order(FieldOf(s).value) + 1
    ensures Rank(s) % 2 == 1 ==> FieldOf(s).Some?
    ensures FieldOf(s) != Some(UserInfoField) && FieldOf(s) != Some(PortField)
    ensures FieldOf(s) == Some(SchemaField) <==> s.Schema?
    ensures FieldOf(s) == Some(HostField) <==> Rank(s) == 5
  {
  }

  lemma OrderInjective(f: Field, g: Field)
    requires Order(f) == Order(g)
    ensures f == g
  {
  }

  /** The fields after `p` bytes: all closed but the one the state collects, which ends at `p`. */
  ghost predicate Scanned(a: Scan, p: nat) {
    && Good(a)
    && Slices(a.fields, p)
    && InOrder(a.fields)
    && (forall f :: f in a.fields ==> 2 * Order(f) + 1 <= Rank(a.state))
    && UserInfoField !in a.fields && PortField !in a.fields
    && (FieldOf(a.state).Some? ==>
          var f := FieldOf(a.state).value;
          a.last == Some(f) && f in a.fields && a.fields[f].off + a.fields[f].len == p)
  }

  lemma NextField(a: Scan, c: char, p: nat)
    requires Scanned(a, p) && FieldOf(NextState(a.state, c)).Some?
    ensures var f := FieldOf(NextState(a.state, c)).value;
            && (a.last == Some(f) <==> f in a.fields)
            && (a.last == Some(f) ==> a.fields[f].off + a.fields[f].len == p)
            && (forall g :: g in a.fields && g != f ==> Order(g) < Order(f))
  {
    hide NextState;
    var s := NextState(a.state, c);
    var f := FieldOf(s).value;
    RankRises(a.state, c);
    RankOfField(s);
    RankOfField(a.state);
    if f in a.fields {
      assert Rank(a.state) == Rank(s);
      OrderInjective(f, FieldOf(a.state).value);
    }
    forall g | g in a.fields && g != f ensures Order(g) < Order(f) {
      if Order(g) == Order(f) { OrderInjective(g, f); }
    }
  }

  lemma ScanKeeps(a: Scan, c: char, p: nat)
    requires Scanned(a, p) && ScanByte(a, c, p).Some? && p + 1 < WORD
    ensures Scanned(ScanByte(a, c, p).value, p + 1)
  {
    hide NextState, FieldOf;
    var s := NextState(a.state, c);
    var b := ScanByte(a, c, p).value;
    RankRises(a.state, c);
    RankOfField(s);
    if FieldOf(s).Some? {
      var f := FieldOf(s).value;
      NextField(a, c, p);
      assert b.fields == a.fields[f := b.fields[f]];
      assert b.fields[f].off + b.fields[f].len == p + 1 && 0 < b.fields[f].len;
      assert f in a.fields ==> b.fields[f].off == a.fields[f].off;
      hide ScanByte, Scanned, Rank;
      ScannedFacts(a, p);
      FieldsKept(a.fields, f, b.fields[f], p);
      StillScanned(a, b, f, p);
    } else {
      assert b.fields == a.fields;
    }
  }

  lemma ScannedFacts(a: Scan, p: nat)
    requires Scanned(a, p)
    ensures Slices(a.fields, p) && InOrder(a.fields)
  {
  }

  /** The last field is opened or grows up to `p`. */
  lemma FieldsKept(fields: Fields, f: Field, span: Span, p: nat)
    requires Slices(fields, p) && InOrder(fields)
    requires forall g :: g in fields && g != f ==> Order(g) < Order(f)
    requires span.off + span.len == p + 1 && 0 < span.len && (if f in fields then span.off == fields[f].off else span.off == p)
    ensures Slices(fields[f := span], p + 1) && InOrder(fields[f := span])
  {
  }

  lemma StillScanned(a: Scan, b: Scan, f: Field, p: nat)
    requires Scanned(a, p) && Rank(a.state) <= Rank(b.state)
    requires FieldOf(b.state) == Some(f) && 2 * Order(f) + 1 == Rank(b.state) && f != UserInfoField && f != PortField
    requires b.last == Some(f) && f in b.fields && b.fields == a.fields[f := b.fields[f]]
    requires b.fields[f].off + b.fields[f].len == p + 1
    requires Slices(b.fields, p + 1) && InOrder(b.fields)
    ensures Scanned(b, p + 1)
  {
    hide FieldOf, Rank, Slices, InOrder;
  }

  /** Where the authority starts, and that it is exactly the host's field. */
  ghost predicate AuthoritySpanned(a: Scan, buf: string, p: nat)
    requires p <= |buf|
  {
    var n := AuthorityStart(a.fields);
    && (a.state.BeforeUrl? ==> p == 0 && a.fields == map[])
    && (SchemaField in a.fields ==> a.fields[SchemaField].off == 0)
    && (a.state.SchemaSlash? ==> SchemaField in a.fields && p == n - 2)
    && (a.state.SchemaSlashSlash? ==> SchemaField in a.fields && p == n - 1)
    && (a.state.ServerStart? ==> p == n)
    && (HostField in a.fields ==>
          var span := a.fields[HostField];
          && span.off == n
          && span.off + span.len <= p
          && (forall k :: span.off <= k < span.off + span.len ==> !EndsAuthority(buf[k]))
          && (Rank(a.state) > 5 ==> span.off + span.len < p && EndsAuthority(buf[span.off + span.len])))
  }

  lemma AuthorityKept(a: Scan, buf: string, p: nat)
    requires p < |buf| < WORD
    requires Scanned(a, p) && AuthoritySpanned(a, buf, p) && ScanByte(a, buf[p], p).Some?
    ensures AuthoritySpanned(ScanByte(a, buf[p], p).value, buf, p + 1)
  {
    hide NextState, FieldOf, Slices, InOrder;
    var c := buf[p];
    var s := NextState(a.state, c);
    var b := ScanByte(a, c, p).value;
    RankRises(a.state, c);
    RankOfField(s);
    RankOfField(a.state);
    if FieldOf(s).Some? {
      var f := FieldOf(s).value;
      NextField(a, c, p);
      assert f in a.fields ==> b.fields[f] == Span(a.fields[f].off, a.fields[f].len + 1);
      assert f !in a.fields ==> b.fields[f] == Span(p, 1);
      assert forall g :: g != f ==> (g in b.fields <==> g in a.fields) && (g in a.fields ==> b.fields[g] == a.fields[g]);
    }
  }

  lemma {:induction false} TextScanned(a: Scan, buf: string, p: nat)
    requires p <= |buf| < WORD
    requires Scanned(a, p) && AuthoritySpanned(a, buf, p) && ScanText(a, buf[p..], p).Some?
    ensures var b := ScanText(a, buf[p..], p).value; Scanned(b, |buf|) && AuthoritySpanned(b, buf, |buf|)
    decreases |buf| - p
  {
    hide Scanned, AuthoritySpanned, ScanByte;
    assert Good(a) by { ScannedGood(a, p); }
    if p < |buf| {
      ScanKeeps(a, buf[p], p);
      AuthorityKept(a, buf, p);
      assert buf[p..][1..] == buf[p + 1..];
      TextScanned(ScanByte(a, buf[p], p).value, buf, p + 1);
    }
  }

  lemma ScannedGood(a: Scan, p: nat)
    requires Scanned(a, p)
    ensures Good(a)
  {
  }

  // ----- The scan of the authority -----

  /** Odd ranks collect user info, host and port; even ones are between them. */
  function HostRank(s: HostState): nat {
    match s
    case UserInfoStart => 0
    case InUserInfo => 1
    case HostStart => 2
    case V6Start => 2
    case InHost => 3
    case InV6 => 3
    case ZoneStart => 3
    case InZone => 3
    case V6End => 4
    case PortStart => 4
    case InPort => 5
    case HostDead => 6
  }

  lemma HostRankRises(s: HostState, c: char)
    ensures var t := NextHostState(s, c);
            && HostRank(s) <= HostRank(t)
            && (t.InUserInfo? ==> HostRank(s) < 2)
            && (t.InHost? ==> s.HostStart? || s.InHost?)
            && (t.InV6? ==> s.V6Start? || s.InV6?)
            && (t.ZoneStart? ==> s.InV6?)
            && (t.InZone? ==> s.ZoneStart? || s.InZone?)
            && (t.InPort? ==> (s.PortStart? || s.InPort?) && Num(c))
            && !t.UserInfoStart?
            && (!t.HostDead? && HostRank(s) < 2 ==> (HostRank(t) >= 2 <==> c == '@'))
            && (!t.HostDead? && HostRank(s) >= 2 ==> c != '@')
            && (HostRank(s) == 2 && HostRank(t) < 6 ==> HostRank(t) <= 3)
            && (HostRank(s) < 2 && HostRank(t) < 6 ==> HostRank(t) <= 2)
  {
  }

  /** The authority's fields after the bytes from `o` to `p`. */
  ghost predicate HostScanned(a: HostScan, buf: string, o: nat, p: nat)
    requires o <= p <= |buf|
  {
    && GoodHost(a)
    && UserInfoScanned(a, o, p)
    && NameScanned(a, o, p)
    && PortScanned(a, buf, p)
  }

  ghost predicate UserInfoScanned(a: HostScan, o: nat, p: nat) {
    UserInfoField in a.fields ==>
      var span := a.fields[UserInfoField];
      && 1 <= HostRank(a.state) && 0 < span.len && span.off == o && span.off + span.len <= p
      && (a.state.InUserInfo? ==> span.off + span.len == p)
  }

  ghost predicate NameScanned(a: HostScan, o: nat, p: nat)
    requires HostField in a.fields
  {
    var span := a.fields[HostField];
    && (HostRank(a.state) < 3 ==> span.len == 0)
    && (3 <= HostRank(a.state) ==>
          && 0 < span.len && o <= span.off && span.off + span.len <= p
          && (UserInfoField in a.fields ==> a.fields[UserInfoField].off + a.fields[UserInfoField].len <= span.off))
    && (HostRank(a.state) == 3 ==> span.off + span.len == p)
  }

  ghost predicate PortScanned(a: HostScan, buf: string, p: nat)
    requires HostField in a.fields && p <= |buf|
  {
    && (PortField in a.fields <==> a.state.InPort?)
    && (PortField in a.fields ==>
          var span := a.fields[PortField];
          && 0 < span.len && span.off + span.len == p
          && a.fields[HostField].off + a.fields[HostField].len <= span.off
          && (forall k :: span.off <= k < p ==> Num(buf[k])))
  }

  lemma HostKeeps(a: HostScan, buf: string, o: nat, p: nat)
    requires o <= p < |buf| < WORD
    requires HostScanned(a, buf, o, p) && HostByte(a, buf[p], p).Some?
    requires HostRank(a.state) == 0 ==> o == p
    ensures HostScanned(HostByte(a, buf[p], p).value, buf, o, p + 1)
    ensures HostRank(HostByte(a, buf[p], p).value.state) != 0
  {
    hide NextHostState;
    HostRankRises(a.state, buf[p]);
  }

  /** The byte leaves every field outside the authority alone. */
  predicate SameOutside(before: Fields, after: Fields) {
    forall f :: Order(f) == 0 || 4 <= Order(f) ==> (f in before <==> f in after) && (f in before ==> before[f] == after[f])
  }

  lemma HostLeavesOthers(a: HostScan, c: char, p: nat)
    requires GoodHost(a) && HostByte(a, c, p).Some?
    ensures SameOutside(a.fields, HostByte(a, c, p).value.fields)
  {
    hide NextHostState;
  }

  lemma {:induction false} AtCountSplits(t: string, u: string)
    ensures AtCount(t + u) == AtCount(t) + AtCount(u)
    decreases |t|
  {
    if t == "" {
      assert t + u == u;
    } else {
      assert (t + u)[1..] == t[1..] + u;
      AtCountSplits(t[1..], u);
    }
  }

  /** The authority's `@` is the byte that ends the user info, and the only one. */
  lemma {:induction false} HostScans(a: HostScan, buf: string, o: nat, p: nat, e: nat)
    requires o <= p <= e <= |buf| < WORD && HostScanned(a, buf, o, p)
    requires HostRank(a.state) == 0 ==> o == p
    requires HostText(a, buf[p..e], p).Some?
    ensures var b := HostText(a, buf[p..e], p).value;
            && HostScanned(b, buf, o, e)
            && SameOutside(a.fields, b.fields)
            && (HostAccepts(b.state) ==> AtCount(buf[p..e]) == if HostRank(a.state) < 2 then 1 else 0)
            && (HostRank(a.state) >= 2 && UserInfoField in b.fields ==> UserInfoField in a.fields)
    decreases e - p
  {
    hide HostScanned, HostByte;
    HostScannedGood(a, buf, o, p);
    if p < e {
      var b := HostByte(a, buf[p], p).value;
      HostKeeps(a, buf, o, p);
      HostLeavesOthers(a, buf[p], p);
      assert buf[p..e][1..] == buf[p + 1..e];
      HostScans(b, buf, o, p + 1, e);
      assert buf[p..e] == [buf[p]] + buf[p + 1..e];
      OneAt(buf[p]);
      AtCountSplits([buf[p]], buf[p + 1..e]);
      HostByteState(a, buf[p], p);
      HostRankRises(a.state, buf[p]);
    }
  }

  lemma OneAt(c: char)
    ensures AtCount([c]) == if c == '@' then 1 else 0
  {
    assert [c][1..] == "";
  }

  lemma HostByteState(a: HostScan, c: char, p: nat)
    requires GoodHost(a) && HostByte(a, c, p).Some?
    ensures HostByte(a, c, p).value.state == NextHostState(a.state, c) && !NextHostState(a.state, c).HostDead?
    ensures UserInfoField in HostByte(a, c, p).value.fields ==>
              UserInfoField in a.fields || NextHostState(a.state, c).InUserInfo?
  {
    hide NextHostState;
  }

  lemma HostScannedGood(a: HostScan, buf: string, o: nat, p: nat)
    requires o <= p <= |buf| && HostScanned(a, buf, o, p)
    ensures GoodHost(a)
  {
  }

  // ----- The accepted URL -----

  /** The authority's own fields lie inside it, and the port is all digits. */
  predicate Inside(buf: string, fields: Fields, o: nat, e: nat) {
    && (forall f :: f in fields && 1 <= Order(f) <= 3 ==>
          0 < fields[f].len && o <= fields[f].off && fields[f].off + fields[f].len <= e)
    && (PortField in fields ==>
          var span := fields[PortField];
          forall k :: span.off <= k < span.off + span.len && k < |buf| ==> Num(buf[k]))
  }

  lemma HostSplit(buf: string, fields: Fields, foundAt: bool)
    requires |buf| < WORD && Slices(fields, |buf|) && InOrder(fields)
    requires HostField in fields && UserInfoField !in fields && PortField !in fields
    requires ParseHost(buf, fields, foundAt).Some?
    ensures var r := ParseHost(buf, fields, foundAt).value;
            var o := fields[HostField].off;
            var e := o + fields[HostField].len;
            && Slices(r, |buf|) && InOrder(r)
            && SameOutside(fields, r) && HostField in r
            && Inside(buf, r, o, e)
            && AtCount(buf[o..e]) == (if foundAt then 1 else 0)
            && (UserInfoField in r ==> foundAt)
  {
    var span := fields[HostField];
    var o, e := span.off, span.off + span.len;
    var start := HostScan(if foundAt then UserInfoStart else HostStart, fields[HostField := span.(len := 0)]);
    HostScans(start, buf, o, o, e);
    var b := HostText(start, buf[o..e], o).value;
    FieldsJoin(buf, fields, b, o, e);
  }

  lemma FieldsJoin(buf: string, fields: Fields, b: HostScan, o: nat, e: nat)
    requires o <= e <= |buf| && Slices(fields, |buf|) && InOrder(fields) && HostField in fields
    requires fields[HostField] == Span(o, e - o)
    requires HostScanned(b, buf, o, e) && HostAccepts(b.state) && SameOutside(fields, b.fields)
    ensures Slices(b.fields, |buf|) && InOrder(b.fields) && Inside(buf, b.fields, o, e)
  {
    InsideAuthority(b, buf, o, e);
    forall f, g | f in b.fields && g in b.fields && Order(f) < Order(g)
      ensures b.fields[f].off + b.fields[f].len <= b.fields[g].off
    {
      if 1 <= Order(f) <= 3 && 1 <= Order(g) <= 3 {
        InOrderInside(b, buf, o, e, f, g);
      } else {
        InOrderAcross(fields, b.fields, o, e, f, g);
      }
    }
    forall f | f in b.fields ensures 0 < b.fields[f].len && b.fields[f].off + b.fields[f].len <= |buf| {
      assert Order(f) == 0 || 1 <= Order(f) <= 3 || 4 <= Order(f);
    }
  }

  lemma InsideAuthority(b: HostScan, buf: string, o: nat, e: nat)
    requires o <= e <= |buf| && HostScanned(b, buf, o, e) && HostAccepts(b.state)
    ensures Inside(buf, b.fields, o, e)
  {
    forall f | f in b.fields && 1 <= Order(f) <= 3
      ensures 0 < b.fields[f].len && o <= b.fields[f].off && b.fields[f].off + b.fields[f].len <= e
    {
      assert f == UserInfoField || f == HostField || f == PortField;
    }
  }

  lemma InOrderInside(b: HostScan, buf: string, o: nat, e: nat, f: Field, g: Field)
    requires o <= e <= |buf| && HostScanned(b, buf, o, e) && HostAccepts(b.state)
    requires f in b.fields && g in b.fields && 1 <= Order(f) < Order(g) <= 3
    ensures b.fields[f].off + b.fields[f].len <= b.fields[g].off
  {
  }

  lemma InOrderAcross(before: Fields, after: Fields, o: nat, e: nat, f: Field, g: Field)
    requires InOrder(before) && SameOutside(before, after) && HostField in before && o <= e
    requires before[HostField] == Span(o, e - o)
    requires forall h :: h in after && 1 <= Order(h) <= 3 ==> o <= after[h].off && after[h].off + after[h].len <= e
    requires f in after && g in after && Order(f) < Order(g) && !(1 <= Order(f) && Order(g) <= 3)
    ensures after[f].off + after[f].len <= after[g].off
  {
    assert Order(HostField) == 2;
  }

  function Start(isConnect: bool): Scan {
    Scan(if isConnect then ServerStart else BeforeUrl, map[], None, false)
  }

  lemma UrlScanned(buf: string, isConnect: bool)
    requires |buf| < WORD && ScanText(Start(isConnect), buf, 0).Some?
    ensures var a := ScanText(Start(isConnect), buf, 0).value;
            Scanned(a, |buf|) && AuthoritySpanned(a, buf, |buf|)
  {
    assert buf[0..] == buf;
    TextScanned(Start(isConnect), buf, 0);
  }

  /** The branches for fields outside the input are never taken, and what is read as the port is all digits. */
  lemma FieldsStayInside(buf: string, isConnect: bool)
    requires |buf| < WORD && ScanText(Start(isConnect), buf, 0).Some?
    ensures var a := ScanText(Start(isConnect), buf, 0).value;
            && PortField !in a.fields
            && (HostField in a.fields ==>
                  && a.fields[HostField].off + a.fields[HostField].len <= |buf|
                  && (ParseHost(buf, a.fields, a.foundAt).Some? ==>
                        var r := ParseHost(buf, a.fields, a.foundAt).value;
                        PortField in r ==>
                          && r[PortField].off + r[PortField].len <= |buf|
                          && forall k :: r[PortField].off <= k < r[PortField].off + r[PortField].len ==> Num(buf[k])))
  {
    hide ScanText, ParseHost;
    UrlScanned(buf, isConnect);
    var a := ScanText(Start(isConnect), buf, 0).value;
    if HostField in a.fields && ParseHost(buf, a.fields, a.foundAt).Some? { HostSplit(buf, a.fields, a.foundAt); }
  }

  /**
   * In an accepted URL every field is a non-empty slice of the input, the fields follow each other from left to right
   * without overlap, a schema comes with a host, the authority's fields lie between the schema and the next `/` or `?`,
   * and the authority holds at most one `@`, exactly one if there is user info.
   */
  lemma AcceptedFields(buf: string, isConnect: bool)
    requires |buf| < WORD && ParseUrl(buf, isConnect).Some?
    ensures var fields := ParseUrl(buf, isConnect).value.fields;
            && Slices(fields, |buf|) && InOrder(fields)
            && (SchemaField in fields ==> HostField in fields)
            && (UserInfoField in fields || PortField in fields ==> HostField in fields)
            && (HostField in fields ==>
                  var o := AuthorityStart(fields);
                  && o <= |buf|
                  && Inside(buf, fields, o, AuthorityEnd(buf, o))
                  && AtCount(buf[o..AuthorityEnd(buf, o)]) <= 1
                  && (UserInfoField in fields ==> AtCount(buf[o..AuthorityEnd(buf, o)]) == 1))
  {
    hide ScanText, ParseHost, ParseUrl, FinishUrl, Scanned, AuthoritySpanned, Slices, InOrder, Inside, AtCount;
    ParsedFields(buf, isConnect);
    UrlScanned(buf, isConnect);
    var a := ScanText(Start(isConnect), buf, 0).value;
    if HostField in a.fields {
      SplitFields(buf, a);
    } else {
      NoHostNoSchema(buf, a);
    }
  }

  lemma ParsedFields(buf: string, isConnect: bool)
    requires |buf| < WORD && ParseUrl(buf, isConnect).Some?
    ensures ScanText(Start(isConnect), buf, 0).Some?
    ensures var a := ScanText(Start(isConnect), buf, 0).value;
            var fields := ParseUrl(buf, isConnect).value.fields;
            && (HostField in a.fields ==>
                  && a.fields[HostField].off + a.fields[HostField].len <= |buf|
                  && ParseHost(buf, a.fields, a.foundAt) == Some(fields))
            && (HostField !in a.fields ==> SchemaField !in a.fields && fields == a.fields)
  {
    hide ScanText, ParseHost, PortValue;
  }

  lemma NoHostNoSchema(buf: string, a: Scan)
    requires Scanned(a, |buf|) && HostField !in a.fields && SchemaField !in a.fields
    ensures Slices(a.fields, |buf|) && InOrder(a.fields)
    ensures UserInfoField !in a.fields && PortField !in a.fields && SchemaField !in a.fields
  {
  }

  lemma SplitFields(buf: string, a: Scan)
    requires |buf| < WORD && Scanned(a, |buf|) && AuthoritySpanned(a, buf, |buf|) && HostField in a.fields
    requires a.fields[HostField].off + a.fields[HostField].len <= |buf| && ParseHost(buf, a.fields, a.foundAt).Some?
    ensures var fields := ParseHost(buf, a.fields, a.foundAt).value;
            var o := AuthorityStart(fields);
            && Slices(fields, |buf|) && InOrder(fields) && HostField in fields
            && o <= |buf|
            && Inside(buf, fields, o, AuthorityEnd(buf, o))
            && AtCount(buf[o..AuthorityEnd(buf, o)]) <= 1
            && (UserInfoField in fields ==> AtCount(buf[o..AuthorityEnd(buf, o)]) == 1)
  {
    hide ParseHost, Slices, InOrder, Inside, AtCount;
    HostSplit(buf, a.fields, a.foundAt);
    var span := a.fields[HostField];
    AuthorityEndIs(buf, span.off, span.off + span.len);
    var fields := ParseHost(buf, a.fields, a.foundAt).value;
    assert AuthorityStart(fields) == AuthorityStart(a.fields) by { assert Order(SchemaField) == 0; }
  }
}
