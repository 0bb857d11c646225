/**
 * UTF-8 as `TextEncoder` and `TextDecoder` use it: encoding as in RFC 3629, decoding
 * as in the WHATWG Encoding Standard, where every maximal ill-formed subsequence
 * becomes one U+FFFD. `Decode` is the standard's "UTF-8 decode without BOM" (what
 * `URLSearchParams` applies to percent-decoded bytes); `DecodeText` is what
 * `new TextDecoder().decode` returns, which also drops one leading U+FEFF.
 */
module Utf8 {

  type byte = b: int | 0 <= b < 256

  const Replacement: char := '\U{FFFD}'

  /** The one-to-four byte encoding of one scalar value. */
  function EncodeChar(c: char): (b: seq<byte>)
    ensures 1 <= |b| <= 4
    ensures (|b| == 1) == (c as int < 0x80)
  {
    var n := c as int;
    if n < 0x80 then [n]
    else if n < 0x800 then [0xC0 + n / 64, 0x80 + n % 64]
    else if n < 0x10000 then [0xE0 + n / 4096, 0x80 + (n / 64) % 64, 0x80 + n % 64]
    else [0xF0 + n / 262144, 0x80 + (n / 4096) % 64, 0x80 + (n / 64) % 64, 0x80 + n % 64]
  }

  /** `new TextEncoder().encode(str)`. */
  function Encode(s: string): (b: seq<byte>)
    ensures |b| >= |s|
  {
    if s == [] then [] else EncodeChar(s[0]) + Encode(s[1..])
  }

  lemma {:induction false} EncodeAppend(a: string, b: string)
    ensures Encode(a + b) == Encode(a) + Encode(b)
  {
    if a == [] {
      assert a + b == b;
    } else {
      assert (a + b)[1..] == a[1..] + b;
      EncodeAppend(a[1..], b);
    }
  }

  /** ASCII text encodes to its own code points, one byte per character. */
  lemma {:induction false} EncodeAscii(s: string)
    requires forall i :: 0 <= i < |s| ==> s[i] as int < 0x80
    ensures |Encode(s)| == |s|
    ensures forall i :: 0 <= i < |s| ==> Encode(s)[i] == s[i] as int
  {
    if s != [] {
      EncodeAscii(s[1..]);
    }
  }

  /** How many continuation bytes a lead byte announces; 0 for a byte that cannot lead. */
  function Needed(lead: byte): nat {
    if 0xC2 <= lead <= 0xDF then 1
    else if 0xE0 <= lead <= 0xEF then 2
    else if 0xF0 <= lead <= 0xF4 then 3
    else 0
  }

  /** The admissible range of the first continuation byte, which rules out overlong forms, surrogates and values above U+10FFFF. */
  function Lower(lead: byte): byte {
    if lead == 0xE0 then 0xA0 else if lead == 0xF0 then 0x90 else 0x80
  }

  function Upper(lead: byte): byte {
    if lead == 0xED then 0x9F else if lead == 0xF4 then 0x8F else 0xBF
  }

  /** Byte `i` of `b` continues the sequence led by `b[0]`. */
  predicate Continues(b: seq<byte>, i: nat)
    requires |b| > 0
  {
    i < |b| && if i == 1 then Lower(b[0]) <= b[1] <= Upper(b[0]) else 0x80 <= b[i] <= 0xBF
  }

  /** The number of admissible continuation bytes after the lead, at most `n`. */
  function Run(b: seq<byte>, n: nat): (m: nat)
    requires |b| > 0 && n <= 3
    ensures m <= n && 1 + m <= |b|
    ensures forall i :: 1 <= i <= m ==> Continues(b, i)
    ensures m < n ==> !Continues(b, m + 1)
  {
    if n == 0 || !Continues(b, 1) then 0
    else if n == 1 || !Continues(b, 2) then 1
    else if n == 2 || !Continues(b, 3) then 2
    else 3
  }

  /** The scalar value of a complete, well-formed multi-byte sequence. */
  function Assemble(b: seq<byte>, n: nat): char
    requires 1 <= n <= 3 && |b| > 0 && Needed(b[0]) == n && Run(b, n) == n
  {
    var b0: int, b1: int := b[0], b[1];
    if n == 1 then ((b0 - 0xC0) * 64 + (b1 - 0x80)) as char
    else
      var b2: int := b[2];
      if n == 2 then
        var v := (b0 - 0xE0) * 4096 + (b1 - 0x80) * 64 + (b2 - 0x80);
        assert v < 0xD800 || 0xE000 <= v;
        v as char
      else
        var b3: int := b[3];
        ((b0 - 0xF0) * 262144 + (b1 - 0x80) * 4096 + (b2 - 0x80) * 64 + (b3 - 0x80)) as char
  }

  /** UTF-8 decode without BOM: replacement decoding, never failing. */
  function Decode(b: seq<byte>): string
    decreases |b|
  {
    if b == [] then []
    else if b[0] < 0x80 then [b[0] as char] + Decode(b[1..])
    else
      var n := Needed(b[0]);
      if n == 0 then [Replacement] + Decode(b[1..])
      else
        var m := Run(b, n);
        if m == n then [Assemble(b, n)] + Decode(b[n + 1..])
        else [Replacement] + Decode(b[1 + m..])
  }

  lemma DecodeEncodedChar(c: char, rest: seq<byte>)
    ensures Decode(EncodeChar(c) + rest) == [c] + Decode(rest)
  {
    var e := EncodeChar(c);
    var b := e + rest;
    assert b[0] == e[0];
    if c as int < 0x80 {
      assert b[1..] == rest;
    } else if c as int < 0x800 {
      TwoBytes(c, rest);
    } else if c as int < 0x10000 {
      ThreeBytes(c, rest);
    } else {
      FourBytes(c, rest);
    }
  }

  lemma TwoBytes(c: char, rest: seq<byte>)
    requires 0x80 <= c as int < 0x800
    ensures Decode(EncodeChar(c) + rest) == [c] + Decode(rest)
  {
    var n := c as int;
    var b := EncodeChar(c) + rest;
    assert b[0] == 0xC0 + n / 64 && b[1] == 0x80 + n % 64;
    assert Needed(b[0]) == 1;
    assert Run(b, 1) == 1;
    assert Assemble(b, 1) as int == n;
    assert b[2..] == rest;
  }

  lemma ThreeBytes(c: char, rest: seq<byte>)
    requires 0x800 <= c as int < 0x10000
    ensures Decode(EncodeChar(c) + rest) == [c] + Decode(rest)
  {
    var n := c as int;
    var b := EncodeChar(c) + rest;
    assert b[0] == 0xE0 + n / 4096 && b[1] == 0x80 + (n / 64) % 64 && b[2] == 0x80 + n % 64;
    assert Needed(b[0]) == 2;
    assert Continues(b, 1);
    assert Run(b, 2) == 2;
    assert Assemble(b, 2) as int == n;
    assert b[3..] == rest;
  }

  lemma FourBytes(c: char, rest: seq<byte>)
    requires 0x10000 <= c as int
    ensures Decode(EncodeChar(c) + rest) == [c] + Decode(rest)
  {
    var n := c as int;
    var b := EncodeChar(c) + rest;
    FourDigits(n);
    assert b[0] == 0xF0 + n / 262144 && b[1] == 0x80 + (n / 4096) % 64;
    assert b[2] == 0x80 + (n / 64) % 64 && b[3] == 0x80 + n % 64;
    assert Needed(b[0]) == 3;
    assert Continues(b, 1);
    assert Run(b, 3) == 3;
    assert Assemble(b, 3) == c;
    assert b[4..] == rest;
  }

  /** The base-64 digits of a supplementary code point put back together give the code point. */
  lemma FourDigits(n: int)
    requires 0x10000 <= n < 0x110000
    ensures (n / 262144) * 262144 + ((n / 4096) % 64) * 4096 + ((n / 64) % 64) * 64 + n % 64 == n
    ensures n / 262144 <= 4
    ensures n / 262144 == 4 ==> (n / 4096) % 64 < 16
    ensures n / 262144 == 0 ==> (n / 4096) % 64 >= 16
  {
    var a := n / 64;
    var d := a / 64;
    var e := d / 64;
    assert n == a * 64 + n % 64;
    assert a == d * 64 + a % 64;
    assert d == e * 64 + d % 64;
    assert n / 4096 == d;
    assert n / 262144 == e;
  }

  /** Decoding what `TextEncoder` produced gives the original text back. */
  lemma {:induction false} DecodeEncode(s: string)
    ensures Decode(Encode(s)) == s
  {
    if s != [] {
      DecodeEncodedChar(s[0], Encode(s[1..]));
      DecodeEncode(s[1..]);
      assert [s[0]] + s[1..] == s;
    }
  }

  const ByteOrderMark: char := '\U{FEFF}'

  /** One leading U+FEFF removed; any other text as it is. */
  function StripBom(s: string): (r: string)
    ensures s == r || s == [ByteOrderMark] + r
    ensures s != [] && s[0] == ByteOrderMark ==> |r| == |s| - 1
  {
    if s != [] && s[0] == ByteOrderMark then s[1..] else s
  }

  /**
   * `new TextDecoder().decode(bytes)`: its `ignoreBOM` option is false by default, so a
   * U+FEFF decoded first is not output (the `TextDecoder` interface of the WHATWG
   * Encoding Standard).
   */
  function DecodeText(b: seq<byte>): string {
    StripBom(Decode(b))
  }

  /** `TextDecoder` reads back what `TextEncoder` wrote, less one leading U+FEFF. */
  lemma DecodeTextEncode(s: string)
    ensures DecodeText(Encode(s)) == StripBom(s)
    ensures s == [] || s[0] != ByteOrderMark ==> DecodeText(Encode(s)) == s
    ensures s != [] && s[0] == ByteOrderMark ==> DecodeText(Encode(s)) == s[1..]
  {
    DecodeEncode(s);
  }

  /** The three bytes EF BB BF that open the encoding of a text starting with U+FEFF. */
  lemma BomBytes(s: string)
    requires s != [] && s[0] == ByteOrderMark
    ensures |Encode(s)| >= 3 && Encode(s)[..3] == [0xEF, 0xBB, 0xBF]
  {
    assert s == [s[0]] + s[1..];
    EncodeAppend([s[0]], s[1..]);
    assert EncodeChar(ByteOrderMark) == [0xEF, 0xBB, 0xBF];
    assert Encode([s[0]]) == EncodeChar(s[0]) + Encode([]);
  }
}
