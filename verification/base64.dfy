/**
 * `b64EncodeUnicode` and `b64DecodeUnicode`: UTF-8 bytes written in padded base64
 * (RFC 4648 section 4, as `btoa` and Node's `Buffer` write it) and read back with
 * the forgiving base64 decoding of the WHATWG Infra Standard that `atob` performs.
 */
module Base64 {
  import opened Wrappers
  import Utf8

  type byte = Utf8.byte

  predicate IsLetter(c: char) {
    'A' <= c <= 'Z' || 'a' <= c <= 'z' || '0' <= c <= '9' || c == '+' || c == '/'
  }

  predicate AllLetters(s: string) {
    forall i :: 0 <= i < |s| ==> IsLetter(s[i])
  }

  /** The letter for a six-bit value. */
  function Letter(v: int): (c: char)
    requires 0 <= v < 64
    ensures IsLetter(c) && Index(c) == v
  {
    if v < 26 then ('A' as int + v) as char
    else if v < 52 then ('a' as int + v - 26) as char
    else if v < 62 then ('0' as int + v - 52) as char
    else if v == 62 then '+'
    else '/'
  }

  /** The six-bit value of a letter. */
  function Index(c: char): (v: int)
    requires IsLetter(c)
    ensures 0 <= v < 64
  {
    if 'A' <= c <= 'Z' then c as int - 'A' as int
    else if 'a' <= c <= 'z' then c as int - 'a' as int + 26
    else if '0' <= c <= '9' then c as int - '0' as int + 52
    else if c == '+' then 62
    else 63
  }

  predicate Sextets(v: seq<int>) {
    forall i :: 0 <= i < |v| ==> 0 <= v[i] < 64
  }

  /** The six-bit values of a byte string, three bytes to four values, without padding. */
  function SixBits(b: seq<byte>): (v: seq<int>)
    ensures |v| == (4 * |b| + 2) / 3
    ensures Sextets(v)
  {
    if |b| == 0 then []
    else if |b| == 1 then [b[0] / 4, b[0] % 4 * 16]
    else if |b| == 2 then [b[0] / 4, b[0] % 4 * 16 + b[1] / 16, b[1] % 16 * 4]
    else [b[0] / 4, b[0] % 4 * 16 + b[1] / 16, b[1] % 16 * 4 + b[2] / 64, b[2] % 64] + SixBits(b[3..])
  }

  /** The letter of each six-bit value. */
  function Letters(v: seq<int>): (s: string)
    requires Sextets(v)
    ensures |s| == |v| && AllLetters(s)
  {
    seq(|v|, i requires 0 <= i < |v| => Letter(v[i]))
  }

  /** The six-bit value of each letter. */
  function Indices(u: string): (v: seq<int>)
    requires AllLetters(u)
    ensures |v| == |u| && Sextets(v)
  {
    seq(|u|, i requires 0 <= i < |u| => Index(u[i]))
  }

  /** Reading the letters of six-bit values gives the values back. */
  lemma IndicesLetters(v: seq<int>)
    requires Sextets(v)
    ensures Indices(Letters(v)) == v
  {
    var u := Letters(v);
    assert forall i :: 0 <= i < |v| ==> Indices(u)[i] == Index(u[i]) == v[i];
  }

  /** The letters for a byte string, without padding. */
  function EncodeData(b: seq<byte>): (r: string)
    ensures |r| == (4 * |b| + 2) / 3
    ensures AllLetters(r)
  {
    Letters(SixBits(b))
  }

  function Padding(n: nat): string {
    if n % 3 == 1 then "==" else if n % 3 == 2 then "=" else ""
  }

  /** Padded base64 of a byte string: `btoa` of its binary string, `Buffer.toString('base64')`. */
  function Encode(b: seq<byte>): (r: string)
    ensures |r| == 4 * ((|b| + 2) / 3)
    ensures forall i :: 0 <= i < |r| ==> IsLetter(r[i]) || r[i] == '='
  {
    EncodeData(b) + Padding(|b|)
  }

  /** A `=` appears only as padding, after every letter. */
  lemma PaddingOnlyAtEnd(b: seq<byte>)
    ensures var r := Encode(b);
      forall i :: 0 <= i < |r| && r[i] == '=' ==> i >= |r| - 2 && forall j :: i <= j < |r| ==> r[j] == '='
  {
  }

  predicate IsAsciiWhitespace(c: char) {
    c == '\t' || c == '\n' || c == '\U{000C}' || c == '\r' || c == ' '
  }

  function RemoveWhitespace(s: string): (r: string)
    ensures |r| <= |s|
  {
    if s == [] then []
    else if IsAsciiWhitespace(s[0]) then RemoveWhitespace(s[1..])
    else [s[0]] + RemoveWhitespace(s[1..])
  }

  /** Step 2 of forgiving decoding: one or two trailing `=` go when the length is a multiple of four. */
  function StripPadding(t: string): string {
    if |t| % 4 == 0 && |t| >= 2 && t[|t| - 2] == '=' && t[|t| - 1] == '=' then t[..|t| - 2]
    else if |t| % 4 == 0 && |t| >= 1 && t[|t| - 1] == '=' then t[..|t| - 1]
    else t
  }

  /** Six-bit values back to bytes; a final group of two or three values gives one or two bytes. */
  function Regroup(v: seq<int>): (b: seq<byte>)
    requires Sextets(v) && |v| % 4 != 1
  {
    if |v| == 0 then []
    else
      var first := v[0] * 4 + v[1] / 16;
      if |v| == 2 then [first]
      else
        var second := v[1] % 16 * 16 + v[2] / 4;
        if |v| == 3 then [first, second]
        else Group(v[..4]) + Regroup(v[4..])
  }

  /** Four six-bit values back to three bytes. */
  function Group(q: seq<int>): (r: seq<byte>)
    requires |q| == 4 && Sextets(q)
  {
    [q[0] * 4 + q[1] / 16, q[1] % 16 * 16 + q[2] / 4, q[2] % 4 * 64 + q[3]]
  }

  /** Letters back to bytes. */
  function DecodeData(u: string): (b: seq<byte>)
    requires AllLetters(u) && |u| % 4 != 1
  {
    Regroup(Indices(u))
  }

  /** Forgiving base64 decoding: `None` where `atob` throws `InvalidCharacterError`. */
  function ForgivingDecode(s: string): (r: Option<seq<byte>>)
    ensures r.None? <==> var u := StripPadding(RemoveWhitespace(s)); |u| % 4 == 1 || !AllLetters(u)
  {
    var u := StripPadding(RemoveWhitespace(s));
    if |u| % 4 == 1 || !AllLetters(u) then None else Some(DecodeData(u))
  }

  lemma DecodeEncodeData(b: seq<byte>)
    ensures |EncodeData(b)| % 4 != 1
    ensures DecodeData(EncodeData(b)) == b
  {
    IndicesLetters(SixBits(b));
    RegroupSixBits(b);
  }

  /** Regrouping the six-bit values of a byte string gives the bytes back. */
  lemma {:induction false} RegroupSixBits(b: seq<byte>)
    ensures |SixBits(b)| % 4 != 1
    ensures Regroup(SixBits(b)) == b
  {
    EncodedLength(|b|);
    if |b| == 1 {
      GroupDigits(b[0], 0, 0);
    } else if |b| == 2 {
      GroupDigits(b[0], b[1], 0);
    } else if |b| >= 3 {
      RegroupSixBits(b[3..]);
      RegroupGroup(b);
      assert b == b[..3] + b[3..];
    }
  }

  /** Unpadded base64 never has a final group of one letter. */
  lemma EncodedLength(n: nat)
    ensures (4 * n + 2) / 3 % 4 != 1
  {
    var k, r := n / 3, n % 3;
    assert 4 * n + 2 == 12 * k + 4 * r + 2;
    assert (4 * n + 2) / 3 == 4 * k + (4 * r + 2) / 3;
  }

  /** The first four values regroup to the first three bytes; the rest is regrouped on its own. */
  lemma RegroupGroup(b: seq<byte>)
    requires |b| >= 3 && |SixBits(b)| % 4 != 1 && |SixBits(b[3..])| % 4 != 1
    ensures Regroup(SixBits(b)) == b[..3] + Regroup(SixBits(b[3..]))
  {
    var q := [b[0] / 4, b[0] % 4 * 16 + b[1] / 16, b[1] % 16 * 4 + b[2] / 64, b[2] % 64];
    SixBitsStep(b);
    RegroupFour(q, SixBits(b[3..]));
    GroupSixBits(b[0], b[1], b[2]);
    assert b[..3] == [b[0], b[1], b[2]];
  }

  lemma SixBitsStep(b: seq<byte>)
    requires |b| >= 3
    ensures SixBits(b) == [b[0] / 4, b[0] % 4 * 16 + b[1] / 16, b[1] % 16 * 4 + b[2] / 64, b[2] % 64] + SixBits(b[3..])
  {
  }

  /** A whole group of four values is regrouped ahead of the rest. */
  lemma RegroupFour(q: seq<int>, w: seq<int>)
    requires |q| == 4 && Sextets(q) && Sextets(w) && |w| % 4 != 1
    ensures Regroup(q + w) == Group(q) + Regroup(w)
  {
    var v := q + w;
    assert v[4..] == w;
    assert v[..4] == q;
  }

  /** The six-bit values of three bytes regroup to those bytes. */
  lemma GroupSixBits(b0: byte, b1: byte, b2: byte)
    ensures Group([b0 / 4, b0 % 4 * 16 + b1 / 16, b1 % 16 * 4 + b2 / 64, b2 % 64]) == [b0, b1, b2]
  {
    GroupDigits(b0, b1, b2);
  }

  /** Three bytes cut into four six-bit values and put back together. */
  lemma GroupDigits(b0: int, b1: int, b2: int)
    requires 0 <= b0 < 256 && 0 <= b1 < 256 && 0 <= b2 < 256
    ensures (b0 / 4) * 4 + (b0 % 4 * 16 + b1 / 16) / 16 == b0
    ensures (b0 % 4 * 16 + b1 / 16) % 16 * 16 + (b1 % 16 * 4 + b2 / 64) / 4 == b1
    ensures (b1 % 16 * 4 + b2 / 64) % 4 * 64 + b2 % 64 == b2
  {
  }

  lemma {:induction false} NoWhitespaceKept(s: string)
    requires forall i :: 0 <= i < |s| ==> !IsAsciiWhitespace(s[i])
    ensures RemoveWhitespace(s) == s
  {
    if s != [] {
      NoWhitespaceKept(s[1..]);
      assert [s[0]] + s[1..] == s;
    }
  }

  lemma StripLetters(d: string, p: string)
    requires AllLetters(d) && (p == "" || p == "=" || p == "==")
    requires (|d| + |p|) % 4 == 0 && (p != "" ==> |d| >= 2)
    ensures StripPadding(d + p) == d
  {
    var t := d + p;
    assert t[..|d|] == d;
    if p == "=" {
      assert t[|t| - 2] == d[|d| - 1];
    } else if p == "" {
      assert t == d;
      assert |d| > 0 ==> t[|t| - 1] == d[|d| - 1];
    }
  }

  /** Decoding a padded encoding gives the bytes back. */
  lemma DecodeEncode(b: seq<byte>)
    ensures ForgivingDecode(Encode(b)) == Some(b)
  {
    var d, e := EncodeData(b), Encode(b);
    assert e == d + Padding(|b|);
    assert RemoveWhitespace(e) == e by {
      NoWhitespaceKept(e);
    }
    assert StripPadding(e) == d by {
      StripLetters(d, Padding(|b|));
    }
    DecodeEncodeData(b);
  }

  /** White space is dropped wherever it stands. */
  lemma {:induction false} RemoveWhitespaceAppend(a: string, b: string)
    ensures RemoveWhitespace(a + b) == RemoveWhitespace(a) + RemoveWhitespace(b)
  {
    if a != [] {
      RemoveWhitespaceAppend(a[1..], b);
      assert (a + b)[1..] == a[1..] + b;
    } else {
      assert a + b == b;
    }
  }

  /** A character that is not white space survives white-space removal. */
  lemma {:induction false} KeptUnlessWhitespace(s: string, c: char)
    requires c in s && !IsAsciiWhitespace(c)
    ensures c in RemoveWhitespace(s)
  {
    if s[0] != c {
      KeptUnlessWhitespace(s[1..], c);
    }
  }

  /** Forgiving decoding ignores ASCII white space wherever it is inserted. */
  lemma WhitespaceIgnored(a: string, w: char, b: string)
    requires IsAsciiWhitespace(w)
    ensures ForgivingDecode(a + [w] + b) == ForgivingDecode(a + b)
  {
    RemoveWhitespaceAppend(a + [w], b);
    RemoveWhitespaceAppend(a, [w]);
    RemoveWhitespaceAppend(a, b);
    assert RemoveWhitespace([w]) == [] by {
      assert [w][1..] == [];
    }
    assert RemoveWhitespace(a + [w] + b) == RemoveWhitespace(a + b);
  }

  /** Padding is optional: the unpadded letters decode to the same bytes. */
  lemma PaddingOptional(b: seq<byte>)
    ensures ForgivingDecode(EncodeData(b)) == Some(b)
    ensures ForgivingDecode(EncodeData(b)) == ForgivingDecode(Encode(b))
  {
    var d := EncodeData(b);
    NoWhitespaceKept(d);
    assert StripPadding(d) == d by {
      assert |d| > 0 ==> IsLetter(d[|d| - 1]);
    }
    DecodeEncodeData(b);
    DecodeEncode(b);
  }

  /** A character outside the alphabet, white space and `=` makes decoding fail, wherever it is. */
  lemma OutsideAlphabetRejected(s: string, i: nat)
    requires i < |s| && !IsLetter(s[i]) && !IsAsciiWhitespace(s[i]) && s[i] != '='
    ensures ForgivingDecode(s) == None
  {
    var t := RemoveWhitespace(s);
    KeptUnlessWhitespace(s, s[i]);
    var j :| 0 <= j < |t| && t[j] == s[i];
    var u := StripPadding(t);
    if |u| % 4 != 1 {
      assert u == t[..|u|];
      assert j < |u|;
      assert !IsLetter(u[j]);
    }
  }

  /** The binary string built from bytes, one character per byte (`String.fromCharCode`). */
  function BinaryString(b: seq<byte>): (s: string)
    ensures |s| == |b|
    ensures forall i :: 0 <= i < |b| ==> s[i] as int == b[i]
  {
    if b == [] then [] else [b[0] as char] + BinaryString(b[1..])
  }

  /** `btoa(binary)` for a binary string (every character below 256). */
  function Btoa(binary: string): string
    requires forall i :: 0 <= i < |binary| ==> binary[i] as int < 256
  {
    Encode(seq(|binary|, i requires 0 <= i < |binary| => binary[i] as int as byte))
  }

  /** What `b64EncodeUnicode` computes on either branch. */
  function EncodeUnicode(s: string): (r: string)
    ensures |r| == 4 * ((|Utf8.Encode(s)| + 2) / 3)
    ensures forall i :: 0 <= i < |r| ==> IsLetter(r[i]) || r[i] == '='
  {
    Encode(Utf8.Encode(s))
  }

  /**
   * `b64EncodeUnicode(str)`. Without a window (`inBrowser` false) Node's Buffer writes
   * the base64 of the UTF-8 bytes; in a browser the bytes from `TextEncoder` are
   * turned into a binary string one character at a time and given to `btoa`.
   */
  method B64EncodeUnicode(str: string, inBrowser: bool) returns (r: string)
    ensures r == EncodeUnicode(str)
  {
    if !inBrowser {
      return Encode(Utf8.Encode(str));
    }
    var bytes := Utf8.Encode(str);
    var binary := "";
    for i := 0 to |bytes|
      invariant binary == BinaryString(bytes[..i])
    {
      assert bytes[..i + 1] == bytes[..i] + [bytes[i]];
      BinaryStringAppend(bytes[..i], [bytes[i]]);
      binary := binary + [bytes[i] as char];
    }
    assert bytes[..|bytes|] == bytes;
    assert seq(|binary|, i requires 0 <= i < |binary| => binary[i] as int as byte) == bytes;
    r := Btoa(binary);
  }

  lemma {:induction false} BinaryStringAppend(a: seq<byte>, b: seq<byte>)
    ensures BinaryString(a + b) == BinaryString(a) + BinaryString(b)
  {
    if a == [] {
      assert a + b == b;
    } else {
      assert (a + b)[1..] == a[1..] + b;
      BinaryStringAppend(a[1..], b);
    }
  }

  /** What `b64DecodeUnicode` computes in a browser; `None` where `atob` throws. */
  function DecodeUnicode(b64: string): Option<string> {
    match ForgivingDecode(b64)
    case None => None
    case Some(bytes) => Some(Utf8.DecodeText(bytes))
  }

  /** The same with a decoder built as `new TextDecoder('utf-8', { ignoreBOM: true })`: a leading U+FEFF stays. */
  function DecodeUnicodeKeepingBom(b64: string): Option<string> {
    match ForgivingDecode(b64)
    case None => None
    case Some(bytes) => Some(Utf8.Decode(bytes))
  }

  /**
   * `b64DecodeUnicode(b64)` in a browser: `atob` gives a binary string, a `Uint8Array`
   * is filled from its character codes and `TextDecoder` reads it as UTF-8.
   */
  method B64DecodeUnicode(b64: string) returns (r: Option<string>)
    ensures r == DecodeUnicode(b64)
  {
    var decoded := ForgivingDecode(b64);
    if decoded.None? {
      return None;
    }
    var binary := BinaryString(decoded.value);
    var bytes := new byte[|binary|];
    for i := 0 to |binary|
      invariant forall j :: 0 <= j < i ==> bytes[j] == decoded.value[j]
    {
      bytes[i] := binary[i] as int % 256;
    }
    assert bytes[..] == decoded.value;
    r := Some(Utf8.DecodeText(bytes[..]));
  }

  /** Round trip: decoding the encoding of a text gives the text back, less one leading U+FEFF. */
  lemma DecodeEncodeUnicode(s: string)
    ensures DecodeUnicode(EncodeUnicode(s)) == Some(Utf8.StripBom(s))
    ensures s == [] || s[0] != Utf8.ByteOrderMark ==> DecodeUnicode(EncodeUnicode(s)) == Some(s)
  {
    DecodeEncode(Utf8.Encode(s));
    Utf8.DecodeTextEncode(s);
  }

  /** With the U+FEFF kept, decoding the encoding of every text gives the text back. */
  lemma DecodeEncodeKeepingBom(s: string)
    ensures DecodeUnicodeKeepingBom(EncodeUnicode(s)) == Some(s)
  {
    DecodeEncode(Utf8.Encode(s));
    Utf8.DecodeEncode(s);
  }

  /** A text starting with U+FEFF loses it: `77u/YQ==`, the encoding of U+FEFF `a`, decodes to `a`. */
  lemma BomDropped()
    ensures DecodeUnicode(EncodeUnicode("\U{FEFF}a")) == Some("a")
  {
    DecodeEncodeUnicode("\U{FEFF}a");
    assert "\U{FEFF}a"[1..] == "a";
  }

  /**
   * The encoding of a text starting with U+FEFF has `/` as its fourth letter: its first
   * three bytes EF BB BF end in the six bits 111111.
   */
  lemma BomEncodingHasSlash(s: string)
    requires s != [] && s[0] == Utf8.ByteOrderMark
    ensures |EncodeUnicode(s)| >= 4 && EncodeUnicode(s)[3] == '/'
  {
    var b := Utf8.Encode(s);
    Utf8.BomBytes(s);
    assert b[0] == 0xEF && b[1] == 0xBB && b[2] == 0xBF;
    assert SixBits(b)[3] == 63;
    assert EncodeData(b)[3] == Letter(63);
  }

  /** The encoded text of `test` reads back: `dGVzdA==` decodes to `test`. */
  lemma DecodesTest()
    ensures DecodeUnicode("dGVzdA==") == Some("test")
  {
    var b: seq<byte> := [116, 101, 115, 116];
    assert Utf8.Encode("test") == b by {
      Utf8.EncodeAscii("test");
    }
    assert EncodeData(b) == "dGVzdA" by {
      assert b[3..] == [116];
      assert SixBits(b) == [29, 6, 21, 51, 29, 0];
      assert Letter(29) == 'd' && Letter(6) == 'G' && Letter(21) == 'V' && Letter(51) == 'z' && Letter(0) == 'A';
    }
    assert EncodeUnicode("test") == "dGVzdA==";
    DecodeEncodeUnicode("test");
  }
}
