/** Byte encodings the scripts use: `str.encode()` (UTF-8),
    `str.encode('utf-16-le')`, `base64.b64encode` (the standard alphabet of
    section 4 of RFC 4648), `bytes.hex()` and `binascii.unhexlify`. Each
    encoder comes with a decoder and a round-trip lemma. */
module Codec {
  import opened Text

  type byte = b: int | 0 <= b < 256

  predicate IsScalar(n: int) {
    (0 <= n < 0xD800) || (0xE000 <= n < 0x110000)
  }

  lemma CharIsScalar(c: char)
    ensures IsScalar(c as int)
  {
  }

  // ---------------------------------------------------------------------
  // UTF-8

  function Utf8Char(c: char): (r: seq<byte>)
    ensures 1 <= |r| <= 4
    ensures (c as int < 0x80) <==> |r| == 1
    ensures |r| == 1 ==> r[0] == c as int
    ensures forall k :: 0 < k < |r| ==> 0x80 <= r[k] < 0xC0
    ensures |r| > 1 ==> r[0] >= 0xC0
  {
    var n := c as int;
    if n < 0x80 then [n]
    else if n < 0x800 then [0xC0 + n / 64, 0x80 + n % 64]
    else if n < 0x10000 then [0xE0 + n / 4096, 0x80 + (n / 64) % 64, 0x80 + n % 64]
    else [0xF0 + n / 262144, 0x80 + (n / 4096) % 64, 0x80 + (n / 64) % 64, 0x80 + n % 64]
  }

  function Utf8Encode(s: string): seq<byte> {
    if s == [] then [] else Utf8Char(s[0]) + Utf8Encode(s[1..])
  }

  /** The length of the sequence a UTF-8 lead byte announces (0 for a byte
      that cannot start one). */
  function Utf8Width(b0: byte): nat {
    if b0 < 0x80 then 1
    else if 0xC0 <= b0 < 0xE0 then 2
    else if 0xE0 <= b0 < 0xF0 then 3
    else if 0xF0 <= b0 < 0xF8 then 4
    else 0
  }

  function Utf8Value(b: seq<byte>): int
    requires 1 <= |b| <= 4
  {
    var b0: int := b[0];
    if |b| == 1 then b0
    else
      var b1: int := b[1];
      if |b| == 2 then (b0 - 0xC0) * 64 + (b1 - 0x80)
      else
        var b2: int := b[2];
        if |b| == 3 then (b0 - 0xE0) * 4096 + (b1 - 0x80) * 64 + (b2 - 0x80)
        else
          var b3: int := b[3];
          (b0 - 0xF0) * 262144 + (b1 - 0x80) * 4096 + (b2 - 0x80) * 64 + (b3 - 0x80)
  }

  /** Decodes a byte string that starts with a complete sequence, one
      character at a time; None when the bytes are not of that shape. */
  function Utf8Decode(b: seq<byte>): Option<string>
    decreases |b|
  {
    if b == [] then Some([])
    else
      var w := Utf8Width(b[0]);
      if w == 0 || |b| < w then None
      else
        var n := Utf8Value(b[..w]);
        if !IsScalar(n) then None
        else
          match Utf8Decode(b[w..])
          case None => None
          case Some(rest) => Some([n as char] + rest)
  }

  lemma Utf8CharDecodes(c: char)
    ensures Utf8Width(Utf8Char(c)[0]) == |Utf8Char(c)|
    ensures Utf8Value(Utf8Char(c)) == c as int
  {
    var n := c as int;
    if n >= 0x10000 {
      assert n == (n / 262144) * 262144 + ((n / 4096) % 64) * 4096 + ((n / 64) % 64) * 64 + n % 64;
    } else if n >= 0x800 {
      assert n == (n / 4096) * 4096 + ((n / 64) % 64) * 64 + n % 64;
    }
  }

  lemma {:induction false} Utf8RoundTrip(s: string)
    ensures Utf8Decode(Utf8Encode(s)) == Some(s)
  {
    if s != [] {
      var e := Utf8Char(s[0]);
      var b := Utf8Encode(s);
      assert b == e + Utf8Encode(s[1..]);
      Utf8CharDecodes(s[0]);
      assert b[0] == e[0];
      assert b[..|e|] == e;
      assert b[|e|..] == Utf8Encode(s[1..]);
      CharIsScalar(s[0]);
      Utf8RoundTrip(s[1..]);
      assert [s[0]] + s[1..] == s;
    }
  }

  lemma {:induction false} Utf8Append(a: string, b: string)
    ensures Utf8Encode(a + b) == Utf8Encode(a) + Utf8Encode(b)
  {
    if a != [] {
      assert (a + b)[1..] == a[1..] + b;
      Utf8Append(a[1..], b);
    } else {
      assert a + b == b;
    }
  }

  /** An ASCII byte in an encoding comes only from that very character. */
  lemma {:induction false} Utf8AsciiByte(s: string, c: char)
    requires c as int < 0x80 && c !in s
    ensures (c as int) !in Utf8Encode(s)
  {
    if s != [] {
      Utf8AsciiByte(s[1..], c);
    }
  }

  // ---------------------------------------------------------------------
  // UTF-16, little endian

  function Utf16LeChar(c: char): (r: seq<byte>)
    ensures |r| == (if c as int < 0x10000 then 2 else 4)
  {
    var n := c as int;
    if n < 0x10000 then [n % 256, n / 256]
    else
      var m := n - 0x10000;
      var hi := 0xD800 + m / 1024;
      var lo := 0xDC00 + m % 1024;
      [hi % 256, hi / 256, lo % 256, lo / 256]
  }

  function Utf16LeEncode(s: string): seq<byte> {
    if s == [] then [] else Utf16LeChar(s[0]) + Utf16LeEncode(s[1..])
  }

  function Utf16LeDecode(b: seq<byte>): Option<string>
    decreases |b|
  {
    if b == [] then Some([])
    else if |b| < 2 then None
    else
      var u := b[0] as int + 256 * b[1] as int;
      if 0xD800 <= u < 0xDC00 then
        if |b| < 4 then None
        else
          var v := b[2] as int + 256 * b[3] as int;
          if !(0xDC00 <= v < 0xE000) then None
          else
            var n := 0x10000 + (u - 0xD800) * 1024 + (v - 0xDC00);
            match Utf16LeDecode(b[4..])
            case None => None
            case Some(rest) => Some([n as char] + rest)
      else if 0xDC00 <= u < 0xE000 then None
      else
        match Utf16LeDecode(b[2..])
        case None => None
        case Some(rest) => Some([u as char] + rest)
  }

  lemma {:induction false} Utf16LeRoundTrip(s: string)
    ensures Utf16LeDecode(Utf16LeEncode(s)) == Some(s)
  {
    if s != [] {
      var rest := Utf16LeEncode(s[1..]);
      assert Utf16LeEncode(s) == Utf16LeChar(s[0]) + rest;
      Utf16LeRoundTrip(s[1..]);
      Utf16LeCharDecodes(s[0], rest, s[1..]);
      assert [s[0]] + s[1..] == s;
    }
  }

  /** One encoded character in front of bytes that decode to `t` decodes
      to the character followed by `t`. */
  lemma Utf16LeCharDecodes(c: char, rest: seq<byte>, t: string)
    requires Utf16LeDecode(rest) == Some(t)
    ensures Utf16LeDecode(Utf16LeChar(c) + rest) == Some([c] + t)
  {
    var e := Utf16LeChar(c);
    var b := e + rest;
    assert b[|e|..] == rest;
    var n := c as int;
    if n < 0x10000 {
      assert b[0] == n % 256 && b[1] == n / 256;
      assert b[0] as int + 256 * b[1] as int == n;
    } else {
      var m := n - 0x10000;
      var hi, lo := 0xD800 + m / 1024, 0xDC00 + m % 1024;
      assert b[0] == hi % 256 && b[1] == hi / 256 && b[2] == lo % 256 && b[3] == lo / 256;
      assert b[0] as int + 256 * b[1] as int == hi;
      assert b[2] as int + 256 * b[3] as int == lo;
      assert 0x10000 + (hi - 0xD800) * 1024 + (lo - 0xDC00) == n;
    }
  }

  /** Characters of the Basic Multilingual Plane take two bytes each. */
  lemma {:induction false} Utf16LeLength(s: string)
    requires forall i :: 0 <= i < |s| ==> s[i] as int < 0x10000
    ensures |Utf16LeEncode(s)| == 2 * |s|
  {
    if s != [] {
      Utf16LeLength(s[1..]);
    }
  }

  lemma {:induction false} Utf16LeAppend(a: string, b: string)
    ensures Utf16LeEncode(a + b) == Utf16LeEncode(a) + Utf16LeEncode(b)
  {
    if a != [] {
      assert (a + b)[1..] == a[1..] + b;
      Utf16LeAppend(a[1..], b);
    } else {
      assert a + b == b;
    }
  }

  // ---------------------------------------------------------------------
  // Base64, section 4 of RFC 4648

  function B64Char(v: nat): char
    requires v < 64
  {
    if v < 26 then ('A' as int + v) as char
    else if v < 52 then ('a' as int + v - 26) as char
    else if v < 62 then ('0' as int + v - 52) as char
    else if v == 62 then '+'
    else '/'
  }

  function B64Value(c: char): (r: Option<nat>)
    ensures r.Some? ==> r.value < 64
  {
    if 'A' <= c <= 'Z' then Some(c as int - 'A' as int)
    else if 'a' <= c <= 'z' then Some(c as int - 'a' as int + 26)
    else if '0' <= c <= '9' then Some(c as int - '0' as int + 52)
    else if c == '+' then Some(62)
    else if c == '/' then Some(63)
    else None
  }

  lemma B64CharValue(v: nat)
    requires v < 64
    ensures B64Value(B64Char(v)) == Some(v)
  {
  }

  predicate IsB64Char(c: char) {
    B64Value(c).Some?
  }

  /** The four characters for three bytes, two bytes (one `=`) or one byte
      (two `=`): six bits per character, most significant first. */
  function EncodeQuad(x: byte, y: byte, z: byte, n: nat): (r: string)
    requires 1 <= n <= 3
    ensures |r| == 4
  {
    var c0 := B64Char(x / 4);
    var c1 := B64Char((x % 4) * 16 + (if n > 1 then y / 16 else 0));
    if n == 1 then [c0, c1, '=', '=']
    else
      var c2 := B64Char((y % 16) * 4 + (if n > 2 then z / 64 else 0));
      if n == 2 then [c0, c1, c2, '=']
      else [c0, c1, c2, B64Char(z % 64)]
  }

  function Base64Encode(b: seq<byte>): (r: string)
    decreases |b|
  {
    if |b| == 0 then ""
    else if |b| == 1 then EncodeQuad(b[0], 0, 0, 1)
    else if |b| == 2 then EncodeQuad(b[0], b[1], 0, 2)
    else EncodeQuad(b[0], b[1], b[2], 3) + Base64Encode(b[3..])
  }

  lemma {:induction false} Base64Length(b: seq<byte>)
    ensures |Base64Encode(b)| == 4 * ((|b| + 2) / 3)
    decreases |b|
  {
    if |b| == 0 {
    } else if |b| == 1 {
      assert Base64Encode(b) == EncodeQuad(b[0], 0, 0, 1);
    } else if |b| == 2 {
      assert Base64Encode(b) == EncodeQuad(b[0], b[1], 0, 2);
    } else {
      Base64Length(b[3..]);
      assert Base64Encode(b) == EncodeQuad(b[0], b[1], b[2], 3) + Base64Encode(b[3..]);
      assert (|b| + 2) / 3 == (|b| - 3 + 2) / 3 + 1;
    }
  }

  /** One group of four characters; `=` padding is accepted only when the
      group is the last one. */
  function DecodeQuad(q: string, last: bool): Option<seq<byte>>
    requires |q| == 4
  {
    var v0, v1 := B64Value(q[0]), B64Value(q[1]);
    if v0.None? || v1.None? then None
    else
      var a, b := v0.value, v1.value;
      if last && q[2] == '=' && q[3] == '=' then
        if b % 16 != 0 then None else Some([a * 4 + b / 16])
      else
        var v2 := B64Value(q[2]);
        if v2.None? then None
        else
          var c := v2.value;
          if last && q[3] == '=' then
            if c % 4 != 0 then None else Some([a * 4 + b / 16, (b % 16) * 16 + c / 4])
          else
            var v3 := B64Value(q[3]);
            if v3.None? then None
            else Some([a * 4 + b / 16, (b % 16) * 16 + c / 4, (c % 4) * 64 + v3.value])
  }

  /** `base64.b64decode` on well-formed input: groups of four characters. */
  function Base64Decode(s: string): Option<seq<byte>>
    decreases |s|
  {
    if s == [] then Some([])
    else if |s| < 4 then None
    else
      match DecodeQuad(s[..4], |s| == 4)
      case None => None
      case Some(head) =>
        if |head| < 3 then Some(head)
        else
          match Base64Decode(s[4..])
          case None => None
          case Some(rest) => Some(head + rest)
  }

  lemma {:induction false} Base64RoundTrip(b: seq<byte>)
    ensures Base64Decode(Base64Encode(b)) == Some(b)
    decreases |b|
  {
    if |b| == 1 || |b| == 2 {
      Base64RoundTripShort(b);
    } else if |b| >= 3 {
      var q := EncodeQuad(b[0], b[1], b[2], 3);
      var s := Base64Encode(b);
      var tail := Base64Encode(b[3..]);
      assert s == q + tail;
      assert s[..4] == q && s[4..] == tail;
      assert DecodeQuad(q, |s| == 4) == Some([b[0], b[1], b[2]]) by {
        QuadRoundTrip(b[0], b[1], b[2], 3, |s| == 4);
        assert [b[0], b[1], b[2]][..3] == [b[0], b[1], b[2]];
      }
      assert Base64Decode(tail) == Some(b[3..]) by {
        Base64RoundTrip(b[3..]);
      }
      assert b == [b[0], b[1], b[2]] + b[3..];
    }
  }

  /** One or two bytes: a single padded group. */
  lemma Base64RoundTripShort(b: seq<byte>)
    requires |b| == 1 || |b| == 2
    ensures Base64Decode(Base64Encode(b)) == Some(b)
  {
    if |b| == 1 {
      var q := EncodeQuad(b[0], 0, 0, 1);
      assert Base64Encode(b) == q;
      QuadRoundTrip(b[0], 0, 0, 1, true);
      assert q[..4] == q;
      assert [b[0], 0, 0][..1] == b;
    } else {
      var q := EncodeQuad(b[0], b[1], 0, 2);
      assert Base64Encode(b) == q;
      QuadRoundTrip(b[0], b[1], 0, 2, true);
      assert q[..4] == q;
      assert [b[0], b[1], 0][..2] == b;
    }
  }

  lemma QuadRoundTrip(x: byte, y: byte, z: byte, n: nat, last: bool)
    requires 1 <= n <= 3
    requires n < 3 ==> last
    ensures DecodeQuad(EncodeQuad(x, y, z, n), last) == Some([x, y, z][..n])
  {
    if n == 1 {
      QuadOne(x, y, z);
      assert [x, y, z][..n] == [x];
    } else if n == 2 {
      QuadTwo(x, y, z);
      assert [x, y, z][..n] == [x, y];
    } else {
      QuadThree(x, y, z, last);
      assert [x, y, z][..n] == [x, y, z];
    }
  }

  lemma QuadOne(x: byte, y: byte, z: byte)
    ensures DecodeQuad(EncodeQuad(x, y, z, 1), true) == Some([x])
  {
    var v0, v1 := x / 4, (x % 4) * 16;
    B64CharValue(v0);
    B64CharValue(v1);
    assert EncodeQuad(x, y, z, 1) == [B64Char(v0), B64Char(v1), '=', '='];
  }

  lemma QuadTwo(x: byte, y: byte, z: byte)
    ensures DecodeQuad(EncodeQuad(x, y, z, 2), true) == Some([x, y])
  {
    var v0, v1, v2 := x / 4, (x % 4) * 16 + y / 16, (y % 16) * 4;
    B64CharValue(v0);
    B64CharValue(v1);
    B64CharValue(v2);
    assert EncodeQuad(x, y, z, 2) == [B64Char(v0), B64Char(v1), B64Char(v2), '='];
    assert v0 * 4 + v1 / 16 == x;
    assert (v1 % 16) * 16 + v2 / 4 == y;
  }

  lemma QuadThree(x: byte, y: byte, z: byte, last: bool)
    ensures DecodeQuad(EncodeQuad(x, y, z, 3), last) == Some([x, y, z])
  {
    var v0, v1, v2, v3 := x / 4, (x % 4) * 16 + y / 16, (y % 16) * 4 + z / 64, z % 64;
    B64CharValue(v0);
    B64CharValue(v1);
    B64CharValue(v2);
    B64CharValue(v3);
    assert EncodeQuad(x, y, z, 3) == [B64Char(v0), B64Char(v1), B64Char(v2), B64Char(v3)];
    assert v0 * 4 + v1 / 16 == x;
    assert (v1 % 16) * 16 + v2 / 4 == y;
    assert (v2 % 4) * 64 + v3 == z;
  }

  lemma {:induction false} Base64Alphabet(b: seq<byte>)
    ensures forall i :: 0 <= i < |Base64Encode(b)| ==> IsB64Char(Base64Encode(b)[i]) || Base64Encode(b)[i] == '='
    decreases |b|
  {
    if |b| >= 3 {
      Base64Alphabet(b[3..]);
    }
  }

  // ---------------------------------------------------------------------
  // Hexadecimal: `bytes.hex()` and `binascii.unhexlify`

  function HexDigit(d: nat): char
    requires d < 16
  {
    if d < 10 then ('0' as int + d) as char else ('a' as int + d - 10) as char
  }

  function HexValue(c: char): Option<nat> {
    if '0' <= c <= '9' then Some(c as int - '0' as int)
    else if 'a' <= c <= 'f' then Some(c as int - 'a' as int + 10)
    else if 'A' <= c <= 'F' then Some(c as int - 'A' as int + 10)
    else None
  }

  predicate IsHexChar(c: char) {
    HexValue(c).Some?
  }

  predicate IsLowerHexChar(c: char) {
    ('0' <= c <= '9') || ('a' <= c <= 'f')
  }

  /** `bytes.hex()`: two lower-case digits per byte, high nibble first. */
  function Hex(b: seq<byte>): (r: string)
    ensures |r| == 2 * |b|
    ensures forall i :: 0 <= i < |r| ==> IsLowerHexChar(r[i])
  {
    if b == [] then "" else [HexDigit(b[0] / 16), HexDigit(b[0] % 16)] + Hex(b[1..])
  }

  /** `binascii.unhexlify(s)`: None where Python raises (odd length, or a
      character that is not a hexadecimal digit). */
  function Unhexlify(s: string): Option<seq<byte>>
    decreases |s|
  {
    if s == [] then Some([])
    else if |s| == 1 then None
    else
      var hi, lo := HexValue(s[0]), HexValue(s[1]);
      if hi.None? || lo.None? then None
      else
        match Unhexlify(s[2..])
        case None => None
        case Some(rest) => Some([hi.value * 16 + lo.value] + rest)
  }

  lemma {:induction false} UnhexlifyDefined(s: string)
    ensures Unhexlify(s).Some? <==> (|s| % 2 == 0 && forall i :: 0 <= i < |s| ==> IsHexChar(s[i]))
    ensures Unhexlify(s).Some? ==> |Unhexlify(s).value| == |s| / 2
    decreases |s|
  {
    if |s| >= 2 {
      UnhexlifyDefined(s[2..]);
      assert forall i :: 2 <= i < |s| ==> s[i] == s[2..][i - 2];
    }
  }

  lemma {:induction false} HexRoundTrip(b: seq<byte>)
    ensures Unhexlify(Hex(b)) == Some(b)
  {
    if b != [] {
      var h := Hex(b);
      assert h[2..] == Hex(b[1..]);
      HexRoundTrip(b[1..]);
      assert [b[0]] + b[1..] == b;
    }
  }

  lemma {:induction false} HexPrefix(b: seq<byte>, n: nat)
    requires n <= |b|
    ensures Hex(b[..n]) == Hex(b)[..2 * n]
  {
    if n > 0 {
      assert b[..n][1..] == b[1..][..n - 1];
      HexPrefix(b[1..], n - 1);
    }
  }
}
