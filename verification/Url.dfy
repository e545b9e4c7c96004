/** The URL automata: one over the whole URL, one over its authority. */
module UrlSpec {
  import opened Options
  import Digits

  // ----- Character classes -----

  predicate Alpha(c: char) { 'a' <= c <= 'z' || 'A' <= c <= 'Z' }
  predicate Num(c: char) { '0' <= c <= '9' }
  predicate AlphaNum(c: char) { Alpha(c) || Num(c) }
  predicate Hex(c: char) { Num(c) || 'a' <= c <= 'f' || 'A' <= c <= 'F' }
  predicate Mark(c: char) { c in "-_.!~*'()" }
  predicate UserInfoChar(c: char) { AlphaNum(c) || Mark(c) || c in "%;:&=+$," }
  predicate HostChar(c: char) { AlphaNum(c) || c in ".-_" }
  predicate ZoneChar(c: char) { AlphaNum(c) || c in "%.-_~" }

  /** Tab, form feed, the printable ASCII characters but `#` and `?`, and every byte from 128 on. */
  predicate UrlChar(c: char) {
    var n := c as int;
    n == 9 || n == 12 || (33 <= n <= 126 && c != '#' && c != '?') || n >= 128
  }

  // ----- The automata -----

  datatype State =
    | Dead | BeforeUrl | Schema | SchemaSlash | SchemaSlashSlash
    | ServerStart | Server | ServerWithAt | Path | QueryStart | Query | FragmentStart | Fragment

  /** `parse_url_char` */
  function NextState(s: State, c: char): State {
    if c == ' ' || c == '\r' || c == '\n' then Dead
    else match s
      case BeforeUrl => if c == '/' || c == '*' then Path else if Alpha(c) then Schema else Dead
      case Schema => if Alpha(c) then Schema else if c == ':' then SchemaSlash else Dead
      case SchemaSlash => if c == '/' then SchemaSlashSlash else Dead
      case SchemaSlashSlash => if c == '/' then ServerStart else Dead
      case ServerWithAt => if c == '@' then Dead else ServerChar(c)
      case ServerStart => ServerChar(c)
      case Server => ServerChar(c)
      case Path => if UrlChar(c) then Path else if c == '?' then QueryStart else if c == '#' then FragmentStart else Dead
      case QueryStart => QueryChar(c)
      case Query => QueryChar(c)
      case FragmentStart => if UrlChar(c) || c == '?' then Fragment else if c == '#' then FragmentStart else Dead
      case Fragment => if UrlChar(c) || c == '?' || c == '#' then Fragment else Dead
      case Dead => Dead
  }

  function ServerChar(c: char): State {
    if c == '/' then Path
    else if c == '?' then QueryStart
    else if c == '@' then ServerWithAt
    else if UserInfoChar(c) || c == '[' || c == ']' then Server
    else Dead
  }

  function QueryChar(c: char): State {
    if UrlChar(c) || c == '?' then Query else if c == '#' then FragmentStart else Dead
  }

  datatype HostState =
    | HostDead | UserInfoStart | InUserInfo | HostStart | V6Start | InHost | InV6 | V6End
    | ZoneStart | InZone | PortStart | InPort

  /** `http_parse_host_char` */
  function NextHostState(s: HostState, c: char): HostState {
    match s
    case UserInfoStart => UserInfoByte(c)
    case InUserInfo => UserInfoByte(c)
    case HostStart => if c == '[' then V6Start else if HostChar(c) then InHost else HostDead
    case InHost => if HostChar(c) then InHost else if c == ':' then PortStart else HostDead
    case V6End => if c == ':' then PortStart else HostDead
    case InV6 => if c == ']' then V6End else if Hex(c) || c == ':' || c == '.' then InV6
                 else if c == '%' then ZoneStart else HostDead
    case V6Start => if Hex(c) || c == ':' || c == '.' then InV6 else HostDead
    case InZone => if c == ']' then V6End else if ZoneChar(c) then InZone else HostDead
    case ZoneStart => if ZoneChar(c) then InZone else HostDead
    case InPort => if Num(c) then InPort else HostDead
    case PortStart => if Num(c) then InPort else HostDead
    case HostDead => HostDead
  }

  function UserInfoByte(c: char): HostState {
    if c == '@' then HostStart else if UserInfoChar(c) then InUserInfo else HostDead
  }

  predicate HostAccepts(s: HostState) { s.InHost? || s.V6End? || s.InPort? }

  // ----- Fields -----

  datatype Field = SchemaField | UserInfoField | HostField | PortField | PathField | QueryField | FragmentField

  /** Offset and length are 16-bit numbers. */
  datatype Span = Span(off: nat, len: nat)

  const WORD: nat := 0x1_0000

  type Fields = map<Field, Span>

  function Open(fields: Fields, f: Field, p: nat, len: nat): Fields {
    fields[f := Span(p % WORD, len)]
  }

  function Grow(fields: Fields, f: Field): Fields
    requires f in fields
  {
    fields[f := fields[f].(len := (fields[f].len + 1) % WORD)]
  }

  /** The field a state collects; the delimiter states collect none. */
  function FieldOf(s: State): Option<Field> {
    match s
    case Schema => Some(SchemaField)
    case Server => Some(HostField)
    case ServerWithAt => Some(HostField)
    case Path => Some(PathField)
    case Query => Some(QueryField)
    case Fragment => Some(FragmentField)
    case _ => None
  }

  /** The scan of the whole URL: `last` is the field of the latest byte that had one. */
  datatype Scan = Scan(state: State, fields: Fields, last: Option<Field>, foundAt: bool)

  predicate Good(a: Scan) { a.last.Some? ==> a.last.value in a.fields }

  function ScanByte(a: Scan, c: char, p: nat): (r: Option<Scan>)
    requires Good(a)
    ensures r.Some? ==> Good(r.value)
  {
    var s := NextState(a.state, c);
    if s.Dead? then None
    else
      var b := a.(state := s, foundAt := a.foundAt || s.ServerWithAt?);
      match FieldOf(s)
      case None => Some(b)
      case Some(f) =>
        if a.last == Some(f) then Some(b.(fields := Grow(a.fields, f)))
        else Some(b.(fields := Open(a.fields, f, p, 1), last := Some(f)))
  }

  /** The scan of `text`, whose first byte is at `p`. */
  function ScanText(a: Scan, text: string, p: nat): (r: Option<Scan>)
    requires Good(a)
    ensures r.Some? ==> Good(r.value)
    decreases |text|
  {
    if text == "" then Some(a)
    else
      var b :- ScanByte(a, text[0], p);
      ScanText(b, text[1..], p + 1)
  }

  datatype HostScan = HostScan(state: HostState, fields: Fields)

  /** The host's field exists from the start; the others open with their first byte. */
  predicate GoodHost(a: HostScan) {
    && HostField in a.fields
    && (a.state.InPort? ==> PortField in a.fields)
    && (a.state.InUserInfo? ==> UserInfoField in a.fields)
  }

  function Collect(fields: Fields, f: Field, p: nat, opens: bool): Fields
    requires f in fields || opens
  {
    if opens then Open(fields, f, p, 1) else Grow(fields, f)
  }

  function HostByte(a: HostScan, c: char, p: nat): (r: Option<HostScan>)
    requires GoodHost(a)
    ensures r.Some? ==> GoodHost(r.value)
  {
    var s := NextHostState(a.state, c);
    var fields := a.fields;
    if s.HostDead? then None
    else Some(HostScan(s,
      if s.InHost? then HostCollect(fields, p, !a.state.InHost?)
      else if s.InV6? then HostCollect(fields, p, !a.state.InV6?)
      else if s.ZoneStart? || s.InZone? then HostCollect(fields, p, false)
      else if s.InPort? then Collect(fields, PortField, p, !a.state.InPort?)
      else if s.InUserInfo? then Collect(fields, UserInfoField, p, !a.state.InUserInfo?)
      else fields))
  }

  /** A new host stretch moves the offset; the length was reset before the scan. */
  function HostCollect(fields: Fields, p: nat, opens: bool): Fields
    requires HostField in fields
  {
    Grow(if opens then fields[HostField := fields[HostField].(off := p % WORD)] else fields, HostField)
  }

  function HostText(a: HostScan, text: string, p: nat): (r: Option<HostScan>)
    requires GoodHost(a)
    ensures r.Some? ==> GoodHost(r.value)
    decreases |text|
  {
    if text == "" then Some(a)
    else
      var b :- HostByte(a, text[0], p);
      HostText(b, text[1..], p + 1)
  }

  /** `http_parse_host`: splits the authority, which the host's field spans so far. */
  function ParseHost(buf: string, fields: Fields, foundAt: bool): Option<Fields>
    requires HostField in fields && fields[HostField].off + fields[HostField].len <= |buf|
  {
    var span := fields[HostField];
    var start := HostScan(if foundAt then UserInfoStart else HostStart, fields[HostField := span.(len := 0)]);
    var end :- HostText(start, buf[span.off..span.off + span.len], span.off);
    if HostAccepts(end.state) then Some(end.fields) else None
  }

  /** The decimal value of a port, unless it exceeds 16 bits. */
  function PortValue(digits: string): Option<nat>
    decreases |digits|
  {
    if digits == "" then Some(0)
    else
      var front :- PortValue(digits[..|digits| - 1]);
      var c := digits[|digits| - 1];
      var v := front * 10 + (if Num(c) then (c - '0') as nat else 0);
      if v > 0xffff then None else Some(v)
  }

  predicate AllDigits(text: string) { forall i :: 0 <= i < |text| ==> Num(text[i]) }

  /** The number that a text of decimal digits writes. */
  function DecimalValue(text: string): nat
    requires AllDigits(text)
  {
    Digits.ValueOf(10, seq(|text|, i requires 0 <= i < |text| => (text[i] - '0') as nat))
  }

  /** A port of any length is read as the number it writes, and refused exactly when that exceeds 16 bits. */
  lemma {:induction false} PortValueExact(text: string)
    requires AllDigits(text)
    ensures PortValue(text) == if DecimalValue(text) <= 0xffff then Some(DecimalValue(text)) else None
    decreases |text|
  {
    if text != "" {
      var front := text[..|text| - 1];
      PortValueExact(front);
      DecimalValueGrows(front, text[|text| - 1]);
      assert front + [text[|text| - 1]] == text;
    }
  }

  lemma DecimalValueGrows(front: string, c: char)
    requires AllDigits(front) && Num(c)
    ensures AllDigits(front + [c]) && DecimalValue(front + [c]) == 10 * DecimalValue(front) + (c - '0') as nat
  {
    var text := front + [c];
    assert forall i :: 0 <= i < |front| ==> text[i] == front[i];
    var ds := seq(|text|, i requires 0 <= i < |text| => (text[i] - '0') as nat);
    assert ds[..|front|] == seq(|front|, i requires 0 <= i < |front| => (front[i] - '0') as nat);
  }

  datatype Url = Url(fields: Fields, port: nat)

  /** `http_parser_parse_url`; `None` is its error result. */
  function ParseUrl(buf: string, isConnect: bool): Option<Url>
    requires |buf| < WORD
  {
    if buf == "" then None
    else
      var a :- ScanText(Scan(if isConnect then ServerStart else BeforeUrl, map[], None, false), buf, 0);
      FinishUrl(buf, isConnect, a)
  }

  function FinishUrl(buf: string, isConnect: bool, a: Scan): Option<Url> {
    if SchemaField in a.fields && HostField !in a.fields then None
    else
      var fields :-
        if HostField !in a.fields then Some(a.fields)
        else if a.fields[HostField].off + a.fields[HostField].len > |buf| then None
        else ParseHost(buf, a.fields, a.foundAt);
      if isConnect && fields.Keys != {HostField, PortField} then None
      else if PortField !in fields then Some(Url(fields, 0))
      else if fields[PortField].off + fields[PortField].len > |buf| then None
      else
        var port :- PortValue(buf[fields[PortField].off..fields[PortField].off + fields[PortField].len]);
        Some(Url(fields, port))
  }
}
