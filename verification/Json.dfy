/** Values that may be absent. */
module Options {
  datatype Option<+T> = None | Some(value: T) {
    predicate IsFailure() { None? }
    function PropagateFailure<U>(): Option<U>
      requires None?
    { None }
    function Extract(): T
      requires Some?
    { value }
  }
}

/** The part of nlohmann's `json` that inja's renderer uses. A `None` stands for a thrown exception. */
module Json {
  import opened Options

  datatype Json =
    | Null
    | Bool(b: bool)
    | Number(n: real)
    | String(s: string)
    | Array(items: seq<Json>)
    | Object(members: map<string, Json>)

  /** `json::empty`: scalars other than null are never empty, so the empty string is not. */
  predicate Empty(j: Json) {
    match j
    case Null => true
    case Array(items) => items == []
    case Object(members) => members == map[]
    case _ => false
  }

  /** `Renderer::truthy`. A non-empty array or object is a type error, not a true value. */
  function Truthy(j: Json): Option<bool> {
    if Empty(j) then Some(false)
    else match j
      case Number(n) => Some(n != 0.0)
      case String(_) => Some(true)
      case Bool(b) => Some(b)
      case _ => None
  }

  /** `j[key] = value`: null turns into an object, any other non-object throws. */
  function Put(j: Json, key: string, value: Json): Option<Json> {
    match j
    case Null => Some(Object(map[key := value]))
    case Object(members) => Some(Object(members[key := value]))
    case _ => None
  }

  /** `j[key]` read for update: a missing member reads as null. */
  function Member(j: Json, key: string): Json {
    if j.Object? && key in j.members then j.members[key] else Null
  }

  predicate Has(j: Json, key: string) {
    j.Object? && key in j.members
  }

  /** The values `begin()..end()` ranges over. */
  predicate Contains(j: Json, x: Json) {
    match j
    case Null => false
    case Array(items) => x in items
    case Object(members) => exists k :: k in members && members[k] == x
    case _ => x == j
  }

  // ----- Paths: dot notation and JSON pointers -----

  /** Splits at every occurrence of `sep`; always yields at least one part. */
  function Split(text: string, sep: char): (parts: seq<string>)
    ensures |parts| >= 1
    decreases |text|
  {
    match FindChar(text, sep)
    case None => [text]
    case Some(i) => [text[..i]] + Split(text[i + 1..], sep)
  }

  function FindChar(text: string, c: char): (r: Option<nat>)
    ensures r.Some? ==> r.value < |text| && text[r.value] == c && c !in text[..r.value]
    ensures r.None? ==> c !in text
  {
    if text == [] then None
    else if text[0] == c then Some(0)
    else match FindChar(text[1..], c)
      case None => None
      case Some(i) =>
        assert text[..i + 1] == [text[0]] + text[1..][..i];
        Some(i + 1)
  }

  /** `convert_dot_to_json_pointer`: every part is preceded by a slash; a trailing dot is dropped. */
  function DotToPointer(dotted: string): string
    decreases |dotted|
  {
    match FindChar(dotted, '.')
    case None => "/" + dotted
    case Some(i) =>
      if i + 1 == |dotted| then "/" + dotted[..i]
      else "/" + dotted[..i] + DotToPointer(dotted[i + 1..])
  }

  /** The value of a decimal array index; a leading zero or a non-digit throws. */
  function ArrayIndex(token: string): Option<nat> {
    if token == "" || (|token| > 1 && token[0] == '0') then None else Decimal(token)
  }

  function Decimal(token: string): Option<nat> {
    if token == "" then Some(0)
    else
      var front :- Decimal(token[..|token| - 1]);
      var c := token[|token| - 1];
      if '0' <= c <= '9' then Some(10 * front + (c - '0') as nat) else None
  }

  /** `json::at(json_pointer)` on the reference tokens of a pointer. */
  function Walk(j: Json, tokens: seq<string>): Option<Json>
    decreases |tokens|
  {
    if tokens == [] then Some(j)
    else match j
      case Object(members) =>
        if tokens[0] in members then Walk(members[tokens[0]], tokens[1..]) else None
      case Array(items) =>
        var i :- ArrayIndex(tokens[0]);
        if i < |items| then Walk(items[i], tokens[1..]) else None
      case _ => None
  }

  /** `pointer` starts with a slash; what follows is split at slashes. */
  function AtPointer(j: Json, pointer: string): Option<Json>
    requires pointer != ""
  {
    Walk(j, Split(pointer[1..], '/'))
  }

  // ----- Members in key order -----

  predicate KeyLess(a: string, b: string) {
    if b == "" then false
    else if a == "" then true
    else a[0] < b[0] || (a[0] == b[0] && KeyLess(a[1..], b[1..]))
  }

  lemma KeyLessTotal(a: string, b: string)
    ensures a == b || KeyLess(a, b) || KeyLess(b, a)
    ensures !(KeyLess(a, b) && KeyLess(b, a)) && !KeyLess(a, a)
  {
    if a != "" && b != "" {
      KeyLessTotal(a[1..], b[1..]);
      KeyLessTotal(a[1..], a[1..]);
      if a[0] == b[0] && a[1..] == b[1..] { assert a == [a[0]] + a[1..] == b; }
    }
  }

  lemma KeyLessTransitive(a: string, b: string, c: string)
    requires KeyLess(a, b) && KeyLess(b, c)
    ensures KeyLess(a, c)
  {
    if a != "" && a[0] == b[0] == c[0] { KeyLessTransitive(a[1..], b[1..], c[1..]); }
  }

  predicate IsLeast(k: string, keys: set<string>) {
    k in keys && forall x :: x in keys ==> x == k || KeyLess(k, x)
  }

  lemma LeastExists(keys: set<string>) returns (k: string)
    requires keys != {}
    ensures IsLeast(k, keys)
  {
    var k0 :| k0 in keys;
    var rest := keys - {k0};
    assert keys == rest + {k0};
    if rest == {} { return k0; }
    var m := LeastExists(rest);
    KeyLessTotal(k0, m);
    if KeyLess(m, k0) { return m; }
    forall x | x in keys ensures x == k0 || KeyLess(k0, x) {
      if x != k0 && x != m { KeyLessTransitive(k0, m, x); }
    }
    return k0;
  }

  function LeastKey(keys: set<string>): (k: string)
    requires keys != {}
    ensures IsLeast(k, keys)
  {
    ghost var w := LeastWitness(keys);
    assert forall a, b :: IsLeast(a, keys) && IsLeast(b, keys) ==> a == b by {
      forall a, b | IsLeast(a, keys) && IsLeast(b, keys) ensures a == b { KeyLessTotal(a, b); }
    }
    var k :| k in keys && IsLeast(k, keys);
    k
  }

  lemma LeastWitnessExists(keys: set<string>)
    requires keys != {}
    ensures exists k :: k in keys && IsLeast(k, keys)
  {
    var k := LeastExists(keys);
  }

  ghost function LeastWitness(keys: set<string>): string
    requires keys != {}
    ensures IsLeast(LeastWitness(keys), keys)
  {
    LeastWitnessExists(keys);
    var k :| k in keys && IsLeast(k, keys);
    k
  }

  /** The members of an object sorted by key, as a key/value loop visits them. */
  function Entries(members: map<string, Json>): (entries: seq<(string, Json)>)
    ensures |entries| == |members|
    decreases |members|
  {
    if members == map[] then []
    else
      var k := LeastKey(members.Keys);
      var rest := members - {k};
      assert rest.Keys == members.Keys - {k};
      assert |rest.Keys| == |members.Keys| - 1;
      [(k, members[k])] + Entries(rest)
  }

  predicate Ascending(entries: seq<(string, Json)>) {
    forall i, j :: 0 <= i < j < |entries| ==> KeyLess(entries[i].0, entries[j].0)
  }

  /** A key/value loop meets every member once, in strictly ascending key order. */
  lemma {:induction false} EntriesSortedAndComplete(members: map<string, Json>)
    ensures Ascending(Entries(members))
    ensures forall e :: e in Entries(members) <==> e.0 in members && members[e.0] == e.1
    decreases |members|
  {
    if members != map[] {
      var k := LeastKey(members.Keys);
      var rest := members - {k};
      assert rest.Keys == members.Keys - {k};
      assert |rest.Keys| == |members.Keys| - 1;
      EntriesSortedAndComplete(rest);
      var tail := Entries(rest);
      assert Entries(members) == [(k, members[k])] + tail;
      forall i | 0 <= i < |tail| ensures KeyLess(k, tail[i].0) {
        assert tail[i] in tail;
      }
    }
  }
}
