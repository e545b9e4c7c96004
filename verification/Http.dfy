/** Accumulating digits in a bounded integer, and chunk sizes in hexadecimal. */
module Digits {
  import opened Options

  const MAX64: nat := 0xffff_ffff_ffff_ffff

  /** `mul_add`: the checks before the multiplication and before the addition. */
  function MulAdd(acc: nat, base: nat, digit: nat, max: nat): Option<nat>
    requires base > 0
  {
    if acc > max / base then None
    else if digit > max || acc * base > max - digit then None
    else Some(acc * base + digit)
  }

  /** The status code is kept in 16 bits and must not exceed 999. */
  function MulAddStatus(acc: nat, digit: nat): Option<nat> {
    match MulAdd(acc, 10, digit, 0xffff)
    case None => None
    case Some(v) => if v > 999 then None else Some(v)
  }

  /** The mathematical value of a digit string. */
  function ValueOf(base: nat, digits: seq<nat>): nat
    decreases |digits|
  {
    if digits == [] then 0
    else base * ValueOf(base, digits[..|digits| - 1]) + digits[|digits| - 1]
  }

  function Accumulate(base: nat, max: nat, digits: seq<nat>): Option<nat>
    requires base > 0
    decreases |digits|
  {
    if digits == [] then Some(0)
    else
      var acc :- Accumulate(base, max, digits[..|digits| - 1]);
      MulAdd(acc, base, digits[|digits| - 1], max)
  }

  function AccumulateStatus(digits: seq<nat>): Option<nat>
    decreases |digits|
  {
    if digits == [] then Some(0)
    else
      var acc :- AccumulateStatus(digits[..|digits| - 1]);
      MulAddStatus(acc, digits[|digits| - 1])
  }

  lemma MulAddExact(acc: nat, base: nat, digit: nat, max: nat)
    requires base > 0 && digit <= max
    ensures MulAdd(acc, base, digit, max) ==
            if base * acc + digit <= max then Some(base * acc + digit) else None
  {
    var q, r := max / base, max % base;
    assert max == base * q + r && 0 <= r < base;
    assert acc * base == base * acc;
    if acc > q {
      assert base * acc >= base * (q + 1) == base * q + base by { Monotone(base, q + 1, acc); }
    }
  }

  lemma Monotone(k: nat, a: nat, b: nat)
    requires a <= b
    ensures k * a <= k * b
  {
  }

  /** Over digit strings of any length the result is the exact value, or an error beyond `max`. */
  lemma {:induction false} AccumulateExact(base: nat, max: nat, digits: seq<nat>)
    requires base > 0 && forall d :: d in digits ==> d <= max
    ensures Accumulate(base, max, digits) ==
            if ValueOf(base, digits) <= max then Some(ValueOf(base, digits)) else None
    decreases |digits|
  {
    if digits != [] {
      var front, d := digits[..|digits| - 1], digits[|digits| - 1];
      assert d in digits && forall x :: x in front ==> x in digits;
      var v := ValueOf(base, front);
      AccumulateExact(base, max, front);
      MulAddExact(v, base, d, max);
      if v > max { Monotone(v, 1, base); assert base * v == v * base >= v; }
    }
  }

  lemma {:induction false} AccumulateStatusExact(digits: seq<nat>)
    requires forall d :: d in digits ==> d <= 9
    ensures AccumulateStatus(digits) == if ValueOf(10, digits) <= 999 then Some(ValueOf(10, digits)) else None
    decreases |digits|
  {
    if digits != [] {
      var front, d := digits[..|digits| - 1], digits[|digits| - 1];
      assert d in digits && forall x :: x in front ==> x in digits;
      AccumulateStatusExact(front);
    }
  }

  // ----- Hexadecimal text -----

  function HexDigit(c: char): Option<nat> {
    if '0' <= c <= '9' then Some((c - '0') as nat)
    else if 'A' <= c <= 'F' then Some((c - 'A') as nat + 10)
    else if 'a' <= c <= 'f' then Some((c - 'a') as nat + 10)
    else None
  }

  predicate IsHex(s: string) {
    forall c :: c in s ==> HexDigit(c).Some?
  }

  function HexDigits(s: string): (r: seq<nat>)
    requires IsHex(s)
    ensures |r| == |s|
  {
    seq(|s|, i requires 0 <= i < |s| => HexDigit(s[i]).value)
  }

  function HexValue(s: string): nat
    requires IsHex(s)
  {
    ValueOf(16, HexDigits(s))
  }

  lemma HexValueGrows(s: string, c: char)
    requires IsHex(s) && HexDigit(c).Some?
    ensures IsHex(s + [c]) && HexValue(s + [c]) == 16 * HexValue(s) + HexDigit(c).value
  {
    var ds := HexDigits(s + [c]);
    assert ds[..|s|] == HexDigits(s);
  }

  function HexChar(d: nat): char
    requires d < 16
  {
    if d < 10 then '0' + d as char else 'A' + (d - 10) as char
  }

  /** Upper-case hexadecimal digits, most significant first. */
  function HexText(n: nat): (s: string)
    ensures s != ""
  {
    if n < 16 then [HexChar(n)] else HexText(n / 16) + [HexChar(n % 16)]
  }

  lemma {:induction false} HexTextValue(n: nat)
    ensures IsHex(HexText(n)) && HexValue(HexText(n)) == n
    ensures HexText(n)[0] == '0' <==> n == 0
    decreases n
  {
    if n < 16 {
      assert [HexChar(n)] == "" + [HexChar(n)];
      assert HexValue("") == 0;
      HexValueGrows("", HexChar(n));
    } else {
      HexTextValue(n / 16);
      HexValueGrows(HexText(n / 16), HexChar(n % 16));
    }
  }

  /** `DecIntToHexStr`: remainders are collected first and then reversed. */
  method DecIntToHexStr(num: nat) returns (hex: string)
    ensures hex == HexText(num)
  {
    var remainders := [HexChar(num % 16)];
    var quotient: nat := num / 16;
    assert Reverse(remainders) == remainders && "" + remainders == remainders;
    while quotient > 0
      invariant HexText(num) == (if quotient == 0 then "" else HexText(quotient)) + Reverse(remainders)
    {
      assert Reverse(remainders + [HexChar(quotient % 16)]) == [HexChar(quotient % 16)] + Reverse(remainders);
      remainders := remainders + [HexChar(quotient % 16)];
      quotient := quotient / 16;
    }
    assert "" + Reverse(remainders) == Reverse(remainders);
    hex := Reversed(remainders);
  }

  method Reversed(remainders: string) returns (hex: string)
    ensures hex == Reverse(remainders)
  {
    hex := "";
    var i := |remainders|;
    while i > 0
      invariant 0 <= i <= |remainders|
      invariant hex == Reverse(remainders)[..|remainders| - i]
    {
      hex := hex + [remainders[i - 1]];
      i := i - 1;
    }
    assert Reverse(remainders)[..|remainders|] == Reverse(remainders);
  }

  function Reverse(s: string): (r: string)
    ensures |r| == |s| && forall i :: 0 <= i < |s| ==> r[i] == s[|s| - 1 - i]
  {
    seq(|s|, i requires 0 <= i < |s| => s[|s| - 1 - i])
  }
}

/** Chunked coding, read off a complete text (section 4.1 of RFC 7230, as leniently as the parser). */
module ChunkedCoding {
  import opened Options
  import opened Digits

  const CR := '\r'
  const LF := '\n'
  const CRLF := "\r\n"

  /**
   * `body` is the data decoded so far: the message is complete and `rest` follows it, the text
   * ends inside the message, the text is malformed, or a trailer field begins.
   */
  datatype Decoded =
    | Complete(body: string, rest: string)
    | Partial(body: string)
    | Malformed(body: string)
    | Trailer(body: string)

  function HexPrefix(s: string): (k: nat)
    ensures k <= |s| && IsHex(s[..k]) && (k < |s| ==> HexDigit(s[k]).None?)
  {
    if s == "" || HexDigit(s[0]).None? then 0
    else
      assert s[..1 + HexPrefix(s[1..])] == [s[0]] + s[1..][..HexPrefix(s[1..])];
      1 + HexPrefix(s[1..])
  }

  function AfterCR(s: string): (r: Option<string>)
    ensures r.Some? ==> |r.value| < |s|
  {
    if s == "" then None else if s[0] == CR then Some(s[1..]) else AfterCR(s[1..])
  }

  datatype SizeLine = Size(n: nat, rest: string) | Unfinished | BadSize

  /** Size, optional extensions, CR, and one more byte that is taken for LF. */
  function ReadSize(s: string): (r: SizeLine)
    ensures r.Size? ==> |r.rest| + 2 < |s|
  {
    var k := HexPrefix(s);
    if k == 0 then if s == "" then Unfinished else BadSize
    else if HexValue(s[..k]) > MAX64 then BadSize
    else AfterDigits(HexValue(s[..k]), s[k..])
  }

  /** The rest of a size line, at a character that is no hexadecimal digit. */
  function AfterDigits(n: nat, s: string): (r: SizeLine)
    ensures r.Size? ==> r.n == n && |r.rest| + 1 < |s|
  {
    if s == "" then Unfinished
    else if s[0] == CR then AfterLine(n, s[1..])
    else if s[0] == ' ' || s[0] == ';' then
      match AfterCR(s[1..])
      case None => Unfinished
      case Some(rest) => AfterLine(n, rest)
    else BadSize
  }

  function AfterLine(n: nat, s: string): (r: SizeLine)
    ensures r.Size? ==> r.n == n && |r.rest| < |s|
    ensures !r.BadSize?
  {
    if s == "" then Unfinished else Size(n, s[1..])
  }

  /** What follows the last chunk when there are no trailer fields. */
  function ReadEnd(s: string): Decoded {
    if s == "" then Partial("")
    else if s[0] == LF then Complete("", s[1..])
    else if s[0] == CR then if |s| == 1 then Partial("") else Complete("", s[2..])
    else Trailer("")
  }

  function Prepend(data: string, d: Decoded): Decoded {
    d.(body := data + d.body)
  }

  function Decode(s: string): Decoded
    decreases |s|
  {
    match ReadSize(s)
    case Unfinished => Partial("")
    case BadSize => Malformed("")
    case Size(n, rest) =>
      if n == 0 then ReadEnd(rest)
      else if |rest| < n then Partial(rest)
      else if |rest| < n + 2 then Partial(rest[..n])
      else Prepend(rest[..n], Decode(rest[n + 2..]))
  }
}

/** Sending chunks: the queue of a response. */
module ChunkSender {
  import opened Options
  import opened Digits
  import opened ChunkedCoding

  function Chunk(body: string): string {
    HexText(|body|) + CRLF + body + CRLF
  }

  const LastChunk := "0\r\n\r\n"

  /** What one push adds: the final push adds the end mark as well. */
  function Pushed(body: string, isLast: bool): seq<(string, bool)> {
    if isLast then [(LastChunk, false), ("", true)] else [(Chunk(body), false)]
  }

  /** The queue after pushing `bodies` and then the end. */
  function PushedAll(bodies: seq<string>): seq<(string, bool)> {
    if bodies == [] then Pushed("", true) else Pushed(bodies[0], false) + PushedAll(bodies[1..])
  }

  /** The bytes written until the end mark is popped. */
  function Drained(queue: seq<(string, bool)>): string {
    if queue == [] || queue[0].1 then "" else queue[0].0 + Drained(queue[1..])
  }

  predicate HasEnd(queue: seq<(string, bool)>) {
    exists i :: 0 <= i < |queue| && queue[i].1
  }

  lemma DrainOne(queue: seq<(string, bool)>)
    requires HasEnd(queue)
    ensures queue != []
    ensures queue[0].1 ==> Drained(queue) == ""
    ensures !queue[0].1 ==> HasEnd(queue[1..]) && Drained(queue) == queue[0].0 + Drained(queue[1..])
  {
    if !queue[0].1 {
      var i :| 0 <= i < |queue| && queue[i].1;
      assert queue[1..][i - 1].1;
    }
  }

  lemma Regroup(a: string, b: string, c: string)
    ensures a + (b + c) == a + b + c
  {
  }

  class ChunkedBodies {
    var chunkedBodies: seq<(string, bool)>

    constructor ()
      ensures chunkedBodies == []
    {
      chunkedBodies := [];
    }

    method PushBack(body: string, isLast: bool)
      modifies this
      ensures chunkedBodies == old(chunkedBodies) + Pushed(body, isLast)
    {
      var data := "";
      if isLast {
        data := "0\r\n\r\n";
      } else {
        var size := DecIntToHexStr(|body|);
        data := size + "\r\n" + body + "\r\n";
      }
      chunkedBodies := chunkedBodies + [(data, false)];
      if isLast { chunkedBodies := chunkedBodies + [("", true)]; }
    }

    method PopFront() returns (data: string, isLast: bool)
      modifies this
      ensures old(chunkedBodies) == [] ==> data == "" && !isLast && chunkedBodies == []
      ensures old(chunkedBodies) != [] ==>
                (data, isLast) == old(chunkedBodies)[0] && chunkedBodies == old(chunkedBodies)[1..]
    {
      if chunkedBodies == [] { return "", false; }
      data, isLast := chunkedBodies[0].0, chunkedBodies[0].1;
      chunkedBodies := chunkedBodies[1..];
    }

    /** The connection pops and writes until it pops the end mark. */
    method WriteAll() returns (wire: string)
      requires HasEnd(chunkedBodies)
      modifies this
      ensures wire == Drained(old(chunkedBodies))
    {
      hide HasEnd, Drained;
      wire := "";
      var isLast := false;
      while !isLast
        invariant !isLast ==> HasEnd(chunkedBodies)
        invariant Drained(old(chunkedBodies)) == wire + if isLast then "" else Drained(chunkedBodies)
        decreases !isLast, |chunkedBodies|
      {
        DrainOne(chunkedBodies);
        var data;
        data, isLast := PopFront();
        if !isLast {
          Regroup(wire, data, Drained(chunkedBodies));
          wire := wire + data;
        }
      }
    }
  }
}
