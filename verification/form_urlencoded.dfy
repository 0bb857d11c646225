/**
 * The `application/x-www-form-urlencoded` serializer and parser of the WHATWG URL
 * Standard (what `URLSearchParams.toString()` writes and what `URLSearchParams`
 * reads from a query), and `encodeURIComponent` of ECMA-262.
 */
module FormUrlEncoded {
  import opened Types
  import Strings
  import Utf8

  type byte = Utf8.byte

  function HexUpper(v: int): char
    requires 0 <= v < 16
  {
    if v < 10 then ('0' as int + v) as char else ('A' as int + v - 10) as char
  }

  /** The value of an ASCII hex digit byte of either case, or -1. */
  function HexByte(b: byte): (v: int)
    ensures -1 <= v < 16
  {
    if 0x30 <= b <= 0x39 then b - 0x30
    else if 0x41 <= b <= 0x46 then b - 0x41 + 10
    else if 0x61 <= b <= 0x66 then b - 0x61 + 10
    else -1
  }

  function PercentByte(b: byte): (r: string)
    ensures |r| == 3 && r[0] == '%'
  {
    ['%', HexUpper(b / 16), HexUpper(b % 16)]
  }

  /** Characters the encoders below can write: ASCII, and never `&`, `=` or a line break. */
  predicate Plain(s: string) {
    forall i :: 0 <= i < |s| ==> s[i] as int < 0x80 && s[i] != '&' && s[i] != '='
  }

  /** Bytes the urlencoded serializer writes as themselves. */
  predicate FormSafe(b: byte) {
    b == 0x2A || b == 0x2D || b == 0x2E || 0x30 <= b <= 0x39 || 0x41 <= b <= 0x5A || b == 0x5F || 0x61 <= b <= 0x7A
  }

  function SerializeByte(b: byte): (r: string)
    ensures Plain(r)
  {
    if b == 0x20 then "+" else if FormSafe(b) then [b as char] else PercentByte(b)
  }

  function SerializeBytes(bs: seq<byte>): (r: string)
    ensures Plain(r)
  {
    if bs == [] then [] else SerializeByte(bs[0]) + SerializeBytes(bs[1..])
  }

  /** The urlencoded form of one name or value: its UTF-8 bytes, serialized. */
  function SerializeText(s: string): (r: string)
    ensures Plain(r)
  {
    SerializeBytes(Utf8.Encode(s))
  }

  function PairText(h: Header): (r: string)
    ensures '&' !in r && '=' in r
  {
    var r := SerializeText(h.key) + "=" + SerializeText(h.value);
    assert r[|SerializeText(h.key)|] == '=';
    r
  }

  /** `URLSearchParams.toString()`: `name=value` pairs joined by `&`. */
  function Serialize(list: seq<Header>): (r: string)
    ensures r == [] <==> list == []
  {
    Strings.Join(seq(|list|, i requires 0 <= i < |list| => PairText(list[i])), "&")
  }

  function ReplacePlus(bs: seq<byte>): (r: seq<byte>)
    ensures |r| == |bs|
    ensures forall i :: 0 <= i < |bs| ==> r[i] == if bs[i] == 0x2B then 0x20 else bs[i]
  {
    if bs == [] then [] else [if bs[0] == 0x2B then 0x20 else bs[0]] + ReplacePlus(bs[1..])
  }

  /** Percent-decoding: `%` and two hex digits give one byte; any other byte stays. */
  function PercentDecode(bs: seq<byte>): (r: seq<byte>)
    ensures |r| <= |bs|
  {
    if bs == [] then []
    else if bs[0] == 0x25 && |bs| >= 3 && HexByte(bs[1]) >= 0 && HexByte(bs[2]) >= 0 then
      [HexByte(bs[1]) * 16 + HexByte(bs[2])] + PercentDecode(bs[3..])
    else [bs[0]] + PercentDecode(bs[1..])
  }

  /** A name or value as the parser reads it: `+` as space, percent-decoded, UTF-8 decoded. */
  function DecodeText(t: string): string {
    Utf8.Decode(PercentDecode(ReplacePlus(Utf8.Encode(t))))
  }

  /** One `&`-separated piece: the name before the first `=`, the value after it (or empty). */
  function ParsePair(piece: string): Header {
    var i := Strings.Find(piece, '=');
    Header(DecodeText(piece[..i]), if i < |piece| then DecodeText(piece[i + 1..]) else [])
  }

  function ParsePieces(pieces: seq<string>): (r: seq<Header>)
    ensures |r| <= |pieces|
  {
    if pieces == [] then []
    else (if pieces[0] == [] then [] else [ParsePair(pieces[0])]) + ParsePieces(pieces[1..])
  }

  /**
   * The urlencoded parser on a query string: split on `&`, skip empty pieces, read each
   * pair. `&` is ASCII and never part of a multi-byte UTF-8 sequence, so splitting the
   * text before encoding it gives the same pieces as splitting its bytes.
   */
  function Parse(query: string): seq<Header> {
    ParsePieces(Strings.Split(query, '&'))
  }

  lemma PlainBytes(t: string)
    requires Plain(t)
    ensures Utf8.Encode(t) == seq(|t|, i requires 0 <= i < |t| => t[i] as int)
  {
    Utf8.EncodeAscii(t);
  }

  lemma ReplacePlusAppend(a: seq<byte>, b: seq<byte>)
    ensures ReplacePlus(a + b) == ReplacePlus(a) + ReplacePlus(b)
  {
  }

  lemma DecodeSerializedByte(b: byte, rest: seq<byte>)
    ensures PercentDecode(ReplacePlus(Utf8.Encode(SerializeByte(b))) + rest) == [b] + PercentDecode(rest)
  {
    var t := SerializeByte(b);
    PlainBytes(t);
    var x := ReplacePlus(Utf8.Encode(t)) + rest;
    if b == 0x20 {
      assert x[1..] == rest;
    } else if FormSafe(b) {
      assert x[1..] == rest;
    } else {
      assert x[3..] == rest;
      assert HexByte(x[1]) == b / 16 && HexByte(x[2]) == b % 16;
    }
  }

  lemma {:induction false} DecodeSerializedBytes(bs: seq<byte>)
    ensures PercentDecode(ReplacePlus(Utf8.Encode(SerializeBytes(bs)))) == bs
  {
    if bs != [] {
      var head, tail := SerializeByte(bs[0]), SerializeBytes(bs[1..]);
      Utf8.EncodeAppend(head, tail);
      ReplacePlusAppend(Utf8.Encode(head), Utf8.Encode(tail));
      DecodeSerializedByte(bs[0], ReplacePlus(Utf8.Encode(tail)));
      DecodeSerializedBytes(bs[1..]);
      assert [bs[0]] + bs[1..] == bs;
    }
  }

  /** A serialized name or value reads back as itself. */
  lemma DecodeSerializedText(s: string)
    ensures DecodeText(SerializeText(s)) == s
  {
    DecodeSerializedBytes(Utf8.Encode(s));
    Utf8.DecodeEncode(s);
  }

  lemma ParsePairText(h: Header)
    ensures ParsePair(PairText(h)) == h
  {
    var k := SerializeText(h.key);
    var p := PairText(h);
    assert p[..|k|] == k;
    assert Strings.Find(p, '=') == |k| by {
      assert p[|k|] == '=';
      assert '=' !in k;
    }
    assert p[|k| + 1..] == SerializeText(h.value);
    DecodeSerializedText(h.key);
    DecodeSerializedText(h.value);
  }

  lemma {:induction false} ParsePairs(list: seq<Header>)
    ensures ParsePieces(seq(|list|, i requires 0 <= i < |list| => PairText(list[i]))) == list
  {
    var ps := seq(|list|, i requires 0 <= i < |list| => PairText(list[i]));
    if list != [] {
      var tail := seq(|list[1..]|, i requires 0 <= i < |list[1..]| => PairText(list[1..][i]));
      assert ps == [PairText(list[0])] + tail;
      ParsePiecesCons(PairText(list[0]), tail);
      ParsePairText(list[0]);
      ParsePairs(list[1..]);
      assert [list[0]] + list[1..] == list;
    }
  }

  lemma ParsePiecesCons(p: string, rest: seq<string>)
    requires p != []
    ensures ParsePieces([p] + rest) == [ParsePair(p)] + ParsePieces(rest)
  {
    assert ([p] + rest)[1..] == rest;
  }

  /** Round trip: parsing what the serializer writes gives the same pairs, in order. */
  lemma ParseSerialize(list: seq<Header>)
    ensures Parse(Serialize(list)) == list
  {
    var ps := seq(|list|, i requires 0 <= i < |list| => PairText(list[i]));
    if list != [] {
      Strings.SplitJoin(ps, '&');
    }
    ParsePairs(list);
  }

  /** Bytes `encodeURIComponent` leaves as they are: ASCII letters, digits and `-_.!~*'()`. */
  predicate Unreserved(b: byte) {
    0x30 <= b <= 0x39 || 0x41 <= b <= 0x5A || 0x61 <= b <= 0x7A
    || b == 0x2D || b == 0x5F || b == 0x2E || b == 0x21 || b == 0x7E || b == 0x2A || b == 0x27 || b == 0x28 || b == 0x29
  }

  function UriBytes(bs: seq<byte>): (r: string)
    ensures Plain(r)
  {
    if bs == [] then []
    else (if Unreserved(bs[0]) then [bs[0] as char] else PercentByte(bs[0])) + UriBytes(bs[1..])
  }

  /** `encodeURIComponent(s)` for a string without lone surrogates. */
  function EncodeUriComponent(s: string): (r: string)
    ensures Plain(r)
  {
    UriBytes(Utf8.Encode(s))
  }

  /** A value made only of unreserved ASCII characters passes `encodeURIComponent` unchanged. */
  lemma {:induction false} EncodeUnreservedUnchanged(s: string)
    requires forall i :: 0 <= i < |s| ==> s[i] as int < 0x80 && Unreserved(s[i] as int)
    ensures EncodeUriComponent(s) == s
  {
    Utf8.EncodeAscii(s);
    UriAscii(s, Utf8.Encode(s));
  }

  lemma {:induction false} UriAscii(s: string, bs: seq<byte>)
    requires |bs| == |s|
    requires forall i :: 0 <= i < |s| ==> bs[i] == s[i] as int && Unreserved(bs[i])
    ensures UriBytes(bs) == s
  {
    if s != [] {
      UriAscii(s[1..], bs[1..]);
      assert [s[0]] + s[1..] == s;
    }
  }
}
