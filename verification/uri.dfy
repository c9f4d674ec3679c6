/** `encodeURIComponent` and its inverse `decodeURIComponent`, over Unicode scalar values: the
    unreserved characters stand for themselves, every other character becomes the percent
    escapes of its UTF-8 bytes, in upper-case hexadecimal. */
module Uri {
  import opened Base

  /** A byte value. */
  type Octet = b: int | 0 <= b < 256

  /** The characters `encodeURIComponent` leaves alone. */
  predicate Unreserved(c: char) {
    || ('A' <= c <= 'Z') || ('a' <= c <= 'z') || ('0' <= c <= '9')
    || c == '-' || c == '_' || c == '.' || c == '!' || c == '~' || c == '*' || c == '\'' || c == '(' || c == ')'
  }

  /** The upper-case hexadecimal digit of `n`. */
  function Hex(n: nat): (c: char)
    requires n < 16
    ensures Unreserved(c)
  {
    if n < 10 then ('0' as int + n) as char else ('A' as int + n - 10) as char
  }

  /** The value of a hexadecimal digit of either case. */
  function HexValue(c: char): (r: Option<nat>)
    ensures r.Some? ==> r.value < 16
  {
    if '0' <= c <= '9' then Some(c as int - '0' as int)
    else if 'A' <= c <= 'F' then Some(c as int - 'A' as int + 10)
    else if 'a' <= c <= 'f' then Some(c as int - 'a' as int + 10)
    else None
  }

  lemma HexRoundTrip(n: nat)
    requires n < 16
    ensures HexValue(Hex(n)) == Some(n)
  {
  }

  /** The UTF-8 bytes of a scalar value: one byte below 0x80, two below 0x800, three below
      0x10000, four otherwise; every byte after the first carries six bits as `10xxxxxx`. */
  function Utf8(c: char): (bytes: seq<Octet>)
    ensures 1 <= |bytes| <= 4
  {
    var cp := c as int;
    var s0, q1 := cp % 64, cp / 64;
    var s1, q2 := q1 % 64, q1 / 64;
    var s2, q3 := q2 % 64, q2 / 64;
    if cp < 0x80 then [cp]
    else if cp < 0x800 then [0xC0 + q1, 0x80 + s0]
    else if cp < 0x10000 then [0xE0 + q2, 0x80 + s1, 0x80 + s0]
    else [0xF0 + q3, 0x80 + s2, 0x80 + s1, 0x80 + s0]
  }

  /** `%XY`. */
  function Escape(b: Octet): (e: string)
    ensures |e| == 3 && e[0] == '%'
  {
    ['%', Hex(b / 16), Hex(b % 16)]
  }

  function Escapes(bytes: seq<Octet>): (e: string)
    ensures |e| == 3 * |bytes|
  {
    if bytes == [] then [] else Escape(bytes[0]) + Escapes(bytes[1..])
  }

  /** What one character becomes. */
  function EncodeChar(c: char): string {
    if Unreserved(c) then [c] else Escapes(Utf8(c))
  }

  /** Text made only of unreserved characters and `%`: it cannot end a query-string value
      or start another. */
  predicate Escaped(r: string) {
    forall i :: 0 <= i < |r| ==> Unreserved(r[i]) || r[i] == '%'
  }

  predicate AllUnreserved(s: string) {
    forall i :: 0 <= i < |s| ==> Unreserved(s[i])
  }

  /** `encodeURIComponent(s)`. */
  function Encode(s: string): (r: string)
    ensures Escaped(r)
    ensures AllUnreserved(s) ==> r == s
  {
    if s == [] then []
    else
      var head := EncodeChar(s[0]);
      EscapesAlphabet(Utf8(s[0]));
      var r := head + Encode(s[1..]);
      EscapedAppend(head, Encode(s[1..]));
      assert AllUnreserved(s) ==> AllUnreserved(s[1..]) && head == [s[0]];
      assert s == [s[0]] + s[1..];
      r
  }

  lemma EscapedAppend(a: string, b: string)
    requires Escaped(a) && Escaped(b)
    ensures Escaped(a + b)
  {
    assert forall i :: |a| <= i < |a + b| ==> (a + b)[i] == b[i - |a|];
  }

  lemma {:induction false} EscapesAlphabet(bytes: seq<Octet>)
    ensures Escaped(Escapes(bytes))
    decreases |bytes|
  {
    if bytes != [] {
      EscapesAlphabet(bytes[1..]);
      EscapedAppend(Escape(bytes[0]), Escapes(bytes[1..]));
    }
  }

  /** A piece of an escaped string: a literal character or an escaped byte. */
  datatype Unit = Plain(c: char) | Byte(b: Octet)

  /** Reads the percent escapes: `%` must be followed by two hexadecimal digits. */
  function Unescape(s: string): (r: Option<seq<Unit>>)
    decreases |s|
  {
    if s == [] then Some([])
    else if s[0] != '%' then
      match Unescape(s[1..])
      case Some(us) => Some([Plain(s[0])] + us)
      case None => None
    else if |s| < 3 || HexValue(s[1]).None? || HexValue(s[2]).None? then None
    else
      match Unescape(s[3..])
      case Some(us) => Some([Byte(16 * HexValue(s[1]).value + HexValue(s[2]).value)] + us)
      case None => None
  }

  /** The length of the UTF-8 sequence a byte opens; 0 when it cannot open one. */
  function SequenceLength(b: Octet): nat {
    if b < 0x80 then 1
    else if 0xC0 <= b < 0xE0 then 2
    else if 0xE0 <= b < 0xF0 then 3
    else if 0xF0 <= b < 0xF8 then 4
    else 0
  }

  predicate Continuation(u: Unit) {
    u.Byte? && 0x80 <= u.b < 0xC0
  }

  /** The scalar value the bytes `us[..n]` spell, `n` being the first one's sequence length. */
  function Decoded(us: seq<Unit>, n: nat): int
    requires 1 <= n <= 4 && |us| >= n && us[0].Byte?
    requires forall k :: 1 <= k < n ==> Continuation(us[k])
  {
    var b0 := us[0].b;
    if n == 1 then b0
    else
      assert Continuation(us[1]);
      var x1 := (b0 - 0xC0) * 64 + (us[1].b - 0x80);
      if n == 2 then x1
      else
        assert Continuation(us[2]);
        var x2 := ((b0 - 0xE0) * 64 + (us[1].b - 0x80)) * 64 + (us[2].b - 0x80);
        if n == 3 then x2
        else
          assert Continuation(us[3]);
          (((b0 - 0xF0) * 64 + (us[1].b - 0x80)) * 64 + (us[2].b - 0x80)) * 64 + (us[3].b - 0x80)
  }

  /** The least scalar value a sequence of `n` bytes may spell (shorter forms are rejected). */
  function Least(n: nat): int {
    if n <= 1 then 0 else if n == 2 then 0x80 else if n == 3 then 0x800 else 0x10000
  }

  predicate IsScalar(cp: int) {
    (0 <= cp < 0xD800) || (0xE000 <= cp < 0x110000)
  }

  function Prepend(c: char, o: Option<string>): (r: Option<string>)
    ensures r.Some? <==> o.Some?
    ensures r.Some? ==> r.value == [c] + o.value
  {
    match o
    case Some(t) => Some([c] + t)
    case None => None
  }

  /** Puts the bytes back together into characters; a malformed or overlong sequence, or
      one spelling a surrogate, fails. */
  function Assemble(us: seq<Unit>): Option<string>
    decreases |us|
  {
    if us == [] then Some([])
    else match us[0]
      case Plain(c) => Prepend(c, Assemble(us[1..]))
      case Byte(b0) =>
        var n := SequenceLength(b0);
        if n == 0 || |us| < n || exists k :: 1 <= k < n && !Continuation(us[k]) then None
        else
          var cp := Decoded(us, n);
          if cp < Least(n) || !IsScalar(cp) then None
          else Prepend(cp as char, Assemble(us[n..]))
  }

  /** `decodeURIComponent(s)`; `None` where it throws a `URIError`. */
  function Decode(s: string): Option<string> {
    match Unescape(s)
    case Some(us) => Assemble(us)
    case None => None
  }

  /** What one character contributes after unescaping. */
  function UnitsOf(c: char): seq<Unit> {
    if Unreserved(c) then [Plain(c)] else Bytes(Utf8(c))
  }

  function Bytes(bytes: seq<Octet>): (us: seq<Unit>)
    ensures |us| == |bytes|
    ensures forall k :: 0 <= k < |bytes| ==> us[k] == Byte(bytes[k])
  {
    if bytes == [] then [] else [Byte(bytes[0])] + Bytes(bytes[1..])
  }

  function Units(s: string): seq<Unit> {
    if s == [] then [] else UnitsOf(s[0]) + Units(s[1..])
  }

  lemma Associative<T>(a: seq<T>, b: seq<T>, c: seq<T>)
    ensures a + (b + c) == (a + b) + c
  {
  }

  lemma UnescapeEscape(b: Octet, tail: string)
    requires Unescape(tail).Some?
    ensures Unescape(Escape(b) + tail) == Some([Byte(b)] + Unescape(tail).value)
  {
    var hi, lo := b / 16, b % 16;
    var s := Escape(b) + tail;
    assert s[0] == '%' && s[1] == Hex(hi) && s[2] == Hex(lo) && s[3..] == tail;
    HexRoundTrip(hi);
    HexRoundTrip(lo);
    assert 16 * hi + lo == b;
  }

  lemma {:induction false} UnescapeEscapes(bytes: seq<Octet>, rest: string)
    requires Unescape(rest).Some?
    ensures Unescape(Escapes(bytes) + rest) == Some(Bytes(bytes) + Unescape(rest).value)
    decreases |bytes|
  {
    var r := Unescape(rest).value;
    if bytes != [] {
      var b := bytes[0];
      UnescapeEscapes(bytes[1..], rest);
      var e, es := Escape(b), Escapes(bytes[1..]);
      var tail := es + rest;
      assert Escapes(bytes) == e + es;
      Associative(e, es, rest);
      UnescapeEscape(b, tail);
      var u, bs := [Byte(b)], Bytes(bytes[1..]);
      assert Bytes(bytes) == u + bs;
      Associative(u, bs, r);
    } else {
      assert Escapes(bytes) == [] && Bytes(bytes) == [];
      assert [] + rest == rest && [] + r == r;
    }
  }

  lemma UnescapeChar(c: char, rest: string)
    requires Unescape(rest).Some?
    ensures Unescape(EncodeChar(c) + rest) == Some(UnitsOf(c) + Unescape(rest).value)
  {
    if Unreserved(c) {
      assert ([c] + rest)[1..] == rest;
    } else {
      UnescapeEscapes(Utf8(c), rest);
    }
  }

  /** Unescaping an encoding yields the units of the characters it encoded. */
  lemma {:induction false} UnescapeEncode(s: string)
    ensures Unescape(Encode(s)) == Some(Units(s))
    decreases |s|
  {
    if s != [] {
      UnescapeEncode(s[1..]);
      UnescapeChar(s[0], Encode(s[1..]));
    }
  }

  /** The sequence `Utf8(c)` opens has exactly its length and reads back as `c`. */
  lemma Utf8Reads(c: char, rest: seq<Unit>)
    ensures var us := Bytes(Utf8(c)) + rest;
      var n := |Utf8(c)|;
      && SequenceLength(Utf8(c)[0]) == n
      && (forall k :: 1 <= k < n ==> Continuation(us[k]))
      && Decoded(us, n) == c as int
      && Least(n) <= c as int
  {
    var cp := c as int;
    var s0, q1 := cp % 64, cp / 64;
    var s1, q2 := q1 % 64, q1 / 64;
    var s2, q3 := q2 % 64, q2 / 64;
    assert cp == q1 * 64 + s0;
    assert q1 == q2 * 64 + s1;
    assert q2 == q3 * 64 + s2;
  }

  lemma AssembleChar(c: char, rest: seq<Unit>)
    ensures Assemble(UnitsOf(c) + rest) == Prepend(c, Assemble(rest))
  {
    var us := UnitsOf(c) + rest;
    if Unreserved(c) {
      assert us[0] == Plain(c) && us[1..] == rest;
    } else {
      var n := |Utf8(c)|;
      Utf8Reads(c, rest);
      assert us[0] == Byte(Utf8(c)[0]);
      assert us[n..] == rest;
      assert (Decoded(us, n) as char) == c;
    }
  }

  lemma {:induction false} AssembleUnits(s: string)
    ensures Assemble(Units(s)) == Some(s)
    decreases |s|
  {
    if s != [] {
      AssembleUnits(s[1..]);
      AssembleChar(s[0], Units(s[1..]));
      assert [s[0]] + s[1..] == s;
    }
  }

  /** `decodeURIComponent(encodeURIComponent(s)) == s` for every string of scalar values. */
  lemma DecodeEncode(s: string)
    ensures Decode(Encode(s)) == Some(s)
  {
    UnescapeEncode(s);
    AssembleUnits(s);
  }
}
