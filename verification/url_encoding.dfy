/** `URLEncoder.encode(s, UTF_8)`: the application/x-www-form-urlencoded form of a
    string, as used for query keys and values. Letters, digits and `- _ . *` are
    kept, a space becomes `+`, and every other character becomes the `%XX` escapes
    of its UTF-8 bytes with upper-case hex digits. A reference decoder undoes it. */
module UrlEncoding {
  import opened Wrappers

  type Byte = x: int | 0 <= x < 256

  /** Characters the encoder copies unchanged. */
  predicate Unreserved(c: char) {
    || ('a' <= c <= 'z') || ('A' <= c <= 'Z') || ('0' <= c <= '9')
    || c == '-' || c == '_' || c == '.' || c == '*'
  }

  /** The only characters an encoded string can contain. */
  predicate Encoded(c: char) {
    Unreserved(c) || c == '+' || c == '%'
  }

  /** The UTF-8 bytes of one Unicode scalar value. */
  function Utf8(c: char): (bs: seq<Byte>)
    ensures 1 <= |bs| <= 4
    ensures |bs| == 1 <==> (c as int) < 0x80
    ensures |bs| == 1 ==> bs[0] == c as int
    ensures forall i | 1 <= i < |bs| :: 0x80 <= bs[i] < 0xC0
    ensures |bs| == 2 ==> 0xC0 <= bs[0] < 0xE0
    ensures |bs| == 3 ==> 0xE0 <= bs[0] < 0xF0
    ensures |bs| == 4 ==> 0xF0 <= bs[0] < 0xF8
  {
    var cp := c as int;
    if cp < 0x80 then [cp]
    else if cp < 0x800 then [0xC0 + cp / 64, 0x80 + cp % 64]
    else if cp < 0x1_0000 then [0xE0 + cp / 4096, 0x80 + (cp / 64) % 64, 0x80 + cp % 64]
    else [0xF0 + cp / 262144, 0x80 + (cp / 4096) % 64, 0x80 + (cp / 64) % 64, 0x80 + cp % 64]
  }

  /** An upper-case hexadecimal digit. */
  function HexDigit(n: int): (d: char)
    requires 0 <= n < 16
    ensures Unreserved(d) && !('a' <= d <= 'z')
  {
    if n < 10 then ('0' as int + n) as char else ('A' as int + n - 10) as char
  }

  /** The value of a hexadecimal digit of either case. */
  function HexValue(d: char): (r: Option<int>)
    ensures r.Some? ==> 0 <= r.value < 16
  {
    if '0' <= d <= '9' then Some(d as int - '0' as int)
    else if 'A' <= d <= 'F' then Some(d as int - 'A' as int + 10)
    else if 'a' <= d <= 'f' then Some(d as int - 'a' as int + 10)
    else None
  }

  lemma HexRoundTrip(n: int)
    requires 0 <= n < 16
    ensures HexValue(HexDigit(n)) == Some(n)
  {
  }

  function PercentByte(b: Byte): (r: string)
    ensures |r| == 3 && r[0] == '%'
  {
    ['%', HexDigit(b / 16), HexDigit(b % 16)]
  }

  function PercentBytes(bs: seq<Byte>): (r: string)
    ensures |r| == 3 * |bs|
    ensures forall i | 0 <= i < |r| :: Encoded(r[i])
  {
    if bs == [] then [] else PercentByte(bs[0]) + PercentBytes(bs[1..])
  }

  /** The encoding of one character. */
  function EncodeChar(c: char): (r: string)
    ensures 1 <= |r|
    ensures forall i | 0 <= i < |r| :: Encoded(r[i])
  {
    if Unreserved(c) then [c]
    else if c == ' ' then "+"
    else PercentBytes(Utf8(c))
  }

  /** `URLEncoder.encode(s, StandardCharsets.UTF_8)`. */
  function Encode(s: string): (r: string)
    ensures |r| >= |s|
    ensures forall i | 0 <= i < |r| :: Encoded(r[i])
  {
    if s == [] then [] else EncodeChar(s[0]) + Encode(s[1..])
  }

  /** The separators of a query string never occur in an encoded key or value. */
  lemma EncodedHasNoSeparators(s: string)
    ensures '&' !in Encode(s) && '=' !in Encode(s) && '?' !in Encode(s) && '#' !in Encode(s)
    ensures ' ' !in Encode(s) && '<' !in Encode(s)
  {
    var r := Encode(s);
    forall c | c in r ensures Encoded(c) {
      var i :| 0 <= i < |r| && r[i] == c;
    }
    assert !Encoded('&') && !Encoded('=') && !Encoded('?');
    assert !Encoded('#') && !Encoded(' ') && !Encoded('<');
  }

  /** A string made of characters the encoder keeps is its own encoding. */
  lemma {:induction false} EncodeUnreserved(s: string)
    requires forall i | 0 <= i < |s| :: Unreserved(s[i])
    ensures Encode(s) == s
  {
    if s != [] {
      EncodeUnreserved(s[1..]);
      assert s == [s[0]] + s[1..];
    }
  }

  // ---- reference decoder ----

  predicate IsScalar(cp: int) {
    (0 <= cp < 0xD800) || (0xE000 <= cp < 0x11_0000)
  }

  /** The byte escaped as `%XX` at position `i`. */
  function ByteAt(t: string, i: nat): (r: Option<Byte>)
  {
    if i + 3 <= |t| && t[i] == '%' && HexValue(t[i + 1]).Some? && HexValue(t[i + 2]).Some? then
      Some(HexValue(t[i + 1]).value * 16 + HexValue(t[i + 2]).value)
    else None
  }

  /** The six payload bits of the continuation byte escaped at triple `k`. */
  function Continuation(t: string, k: nat): (r: Option<int>)
    ensures r.Some? ==> 0 <= r.value < 64
  {
    var b := ByteAt(t, 3 * k);
    if b.Some? && 0x80 <= b.value < 0xC0 then Some(b.value - 0x80) else None
  }

  /** The number of bytes a UTF-8 sequence with this lead byte has; 0 if none. */
  function SequenceLength(b0: Byte): nat {
    if b0 < 0x80 then 1
    else if 0xC0 <= b0 < 0xE0 then 2
    else if 0xE0 <= b0 < 0xF0 then 3
    else if 0xF0 <= b0 < 0xF8 then 4
    else 0
  }

  /** One character decoded from a run of `%XX` escapes, and the text consumed. */
  function DecodeScalar(t: string): (r: Option<(char, nat)>)
    ensures r.Some? ==> 0 < r.value.1 <= |t|
  {
    var lead := ByteAt(t, 0);
    if lead.None? then None
    else
      var b0 := lead.value;
      var n := SequenceLength(b0);
      var c1 := if n >= 2 then Continuation(t, 1) else Some(0);
      var c2 := if n >= 3 then Continuation(t, 2) else Some(0);
      var c3 := if n >= 4 then Continuation(t, 3) else Some(0);
      if n == 0 || c1.None? || c2.None? || c3.None? then None
      else
        var cp :=
          if n == 1 then b0
          else if n == 2 then (b0 - 0xC0) * 64 + c1.value
          else if n == 3 then ((b0 - 0xE0) * 64 + c1.value) * 64 + c2.value
          else (((b0 - 0xF0) * 64 + c1.value) * 64 + c2.value) * 64 + c3.value;
        if IsScalar(cp) then Some((cp as char, 3 * n)) else None
  }

  /** One character decoded from the front of `t`, and the text consumed. */
  function DecodeOne(t: string): (r: Option<(char, nat)>)
    requires |t| > 0
    ensures r.Some? ==> 0 < r.value.1 <= |t|
  {
    if t[0] == '+' then Some((' ', 1))
    else if t[0] != '%' then Some((t[0], 1))
    else DecodeScalar(t)
  }

  /** The form decoding: `+` is a space, `%XX` runs are UTF-8, anything else is
      itself; a malformed escape makes the whole string undecodable. */
  function Decode(t: string): (r: Option<string>)
    decreases |t|
  {
    if t == [] then Some([])
    else
      match DecodeOne(t)
      case None => None
      case Some((c, n)) =>
        match Decode(t[n..])
        case None => None
        case Some(s) => Some([c] + s)
  }

  lemma {:induction false} PercentBytesAt(bs: seq<Byte>, rest: string, k: nat)
    requires k < |bs|
    ensures ByteAt(PercentBytes(bs) + rest, 3 * k) == Some(bs[k])
    decreases |bs|
  {
    var u := PercentBytes(bs[1..]) + rest;
    assert PercentBytes(bs) + rest == PercentByte(bs[0]) + u;
    if k == 0 {
      ByteAtPercent(bs[0], u);
    } else {
      var j := 3 * (k - 1);
      assert 3 + j == 3 * k;
      PercentBytesAt(bs[1..], rest, k - 1);
      ByteAtShift(PercentByte(bs[0]), u, j);
    }
  }

  /** An escaped byte reads back as itself. */
  lemma ByteAtPercent(b: Byte, rest: string)
    ensures ByteAt(PercentByte(b) + rest, 0) == Some(b)
  {
    var t := PercentByte(b) + rest;
    assert t[0..3] == PercentByte(b);
    HexRoundTrip(b / 16);
    HexRoundTrip(b % 16);
  }

  /** Reading past a three-character prefix. */
  lemma ByteAtShift(p: string, u: string, j: nat)
    requires |p| == 3
    ensures ByteAt(p + u, 3 + j) == ByteAt(u, j)
  {
    if j + 3 <= |u| {
      assert (p + u)[3 + j] == u[j] && (p + u)[3 + j + 1] == u[j + 1] && (p + u)[3 + j + 2] == u[j + 2];
    }
  }

  /** The code point a well-formed sequence of UTF-8 bytes stands for. */
  function Utf8Value(bs: seq<Byte>): int
    requires 1 <= |bs| <= 4
  {
    if |bs| == 1 then bs[0] as int
    else if |bs| == 2 then (bs[0] as int - 0xC0) * 64 + (bs[1] as int - 0x80)
    else if |bs| == 3 then ((bs[0] as int - 0xE0) * 64 + (bs[1] as int - 0x80)) * 64 + (bs[2] as int - 0x80)
    else (((bs[0] as int - 0xF0) * 64 + (bs[1] as int - 0x80)) * 64 + (bs[2] as int - 0x80)) * 64 + (bs[3] as int - 0x80)
  }

  lemma Utf8ValueTwo(cp: int)
    requires 0x80 <= cp < 0x800
    ensures (cp / 64) * 64 + cp % 64 == cp
  {
  }

  lemma Utf8ValueThree(cp: int)
    requires 0x800 <= cp < 0x1_0000
    ensures ((cp / 4096) * 64 + (cp / 64) % 64) * 64 + cp % 64 == cp
  {
    var q := cp / 64;
    assert cp == q * 64 + cp % 64;
    assert q == (q / 64) * 64 + q % 64;
    assert cp / 4096 == q / 64;
  }

  lemma Utf8ValueFour(cp: int)
    requires 0x1_0000 <= cp < 0x11_0000
    ensures (((cp / 262144) * 64 + (cp / 4096) % 64) * 64 + (cp / 64) % 64) * 64 + cp % 64 == cp
  {
    var q := cp / 64;
    var q2 := q / 64;
    assert cp == q * 64 + cp % 64;
    assert q == q2 * 64 + q % 64;
    assert q2 == (q2 / 64) * 64 + q2 % 64;
    assert cp / 4096 == q2;
    assert cp / 262144 == q2 / 64;
  }

  /** The UTF-8 bytes of a character stand for its code point. */
  lemma Utf8Decodes(c: char)
    ensures Utf8Value(Utf8(c)) == c as int
  {
    var cp := c as int;
    if 0x80 <= cp < 0x800 {
      Utf8ValueTwo(cp);
    } else if 0x800 <= cp < 0x1_0000 {
      Utf8ValueThree(cp);
    } else if 0x1_0000 <= cp {
      Utf8ValueFour(cp);
    }
  }

  /** `DecodeScalar` reads any well-formed run of escaped UTF-8 bytes. */
  lemma DecodeScalarReads(t: string, bs: seq<Byte>)
    requires 1 <= |bs| <= 4
    requires forall k | 0 <= k < |bs| :: ByteAt(t, 3 * k) == Some(bs[k])
    requires SequenceLength(bs[0]) == |bs|
    requires forall k | 1 <= k < |bs| :: 0x80 <= bs[k] < 0xC0
    requires IsScalar(Utf8Value(bs))
    ensures DecodeScalar(t) == Some((Utf8Value(bs) as char, 3 * |bs|))
  {
    if |bs| >= 2 { assert Continuation(t, 1) == Some(bs[1] - 0x80); }
    if |bs| >= 3 { assert Continuation(t, 2) == Some(bs[2] - 0x80); }
    if |bs| >= 4 { assert Continuation(t, 3) == Some(bs[3] - 0x80); }
  }

  lemma Utf8Scalar(c: char, rest: string)
    requires !Unreserved(c) && c != ' '
    ensures DecodeScalar(PercentBytes(Utf8(c)) + rest) == Some((c, 3 * |Utf8(c)|))
  {
    var bs := Utf8(c);
    var t := PercentBytes(bs) + rest;
    forall k | 0 <= k < |bs| ensures ByteAt(t, 3 * k) == Some(bs[k]) {
      PercentBytesAt(bs, rest, k);
    }
    Utf8Decodes(c);
    DecodeScalarReads(t, bs);
  }

  /** The decoder reads back exactly one encoded character. */
  lemma DecodeOneEncodeChar(c: char, rest: string)
    ensures DecodeOne(EncodeChar(c) + rest) == Some((c, |EncodeChar(c)|))
  {
    if !Unreserved(c) && c != ' ' {
      Utf8Scalar(c, rest);
    }
  }

  /** Decoding an encoded string gives the string back. */
  lemma {:induction false} DecodeEncode(s: string)
    ensures Decode(Encode(s)) == Some(s)
    decreases |s|
  {
    if s != [] {
      var e := EncodeChar(s[0]);
      var t := Encode(s);
      assert t == e + Encode(s[1..]);
      DecodeOneEncodeChar(s[0], Encode(s[1..]));
      assert t[|e|..] == Encode(s[1..]);
      DecodeEncode(s[1..]);
      assert s == [s[0]] + s[1..];
    }
  }

  /** Encoding is injective: different keys or values never collide. */
  lemma EncodeInjective(a: string, b: string)
    requires Encode(a) == Encode(b)
    ensures a == b
  {
    DecodeEncode(a);
    DecodeEncode(b);
  }
}
