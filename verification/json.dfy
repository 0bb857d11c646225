/**
 * What `JSON.stringify` writes for the values the request layer serialises: a string
 * (QuoteJSONString of ECMA-262), a flat string record indented by two spaces, and a
 * JSON value written compactly.
 */
module Json {
  import opened Wrappers
  import opened Types
  import Strings

  function HexLower(v: int): (c: char)
    requires 0 <= v < 16
    ensures HexValue(c) == Some(v)
  {
    if v < 10 then ('0' as int + v) as char else ('a' as int + v - 10) as char
  }

  /** The value of a hexadecimal digit of either case. */
  function HexValue(c: char): Option<int> {
    if '0' <= c <= '9' then Some(c as int - '0' as int)
    else if 'a' <= c <= 'f' then Some(c as int - 'a' as int + 10)
    else if 'A' <= c <= 'F' then Some(c as int - 'A' as int + 10)
    else None
  }

  /** How QuoteJSONString writes one character. */
  function EscapeChar(c: char): (e: string)
    ensures e == [c] <==> c as int >= 0x20 && c != '"' && c != '\\'
    ensures forall i :: 0 <= i < |e| ==> e[i] as int >= 0x20
  {
    if c == '\U{0008}' then "\\b"
    else if c == '\t' then "\\t"
    else if c == '\n' then "\\n"
    else if c == '\U{000C}' then "\\f"
    else if c == '\r' then "\\r"
    else if c == '"' then "\\\""
    else if c == '\\' then "\\\\"
    else if c as int < 0x20 then ['\\', 'u', '0', '0', HexLower(c as int / 16), HexLower(c as int % 16)]
    else [c]
  }

  function Escape(s: string): (r: string)
    ensures forall i :: 0 <= i < |r| ==> r[i] as int >= 0x20
  {
    if s == [] then [] else EscapeChar(s[0]) + Escape(s[1..])
  }

  /** `JSON.stringify(s)` for a string `s`. */
  function Quote(s: string): (r: string)
    ensures |r| >= 2 && r[0] == '"' && r[|r| - 1] == '"'
    ensures forall i :: 0 <= i < |r| ==> r[i] as int >= 0x20
  {
    "\"" + Escape(s) + "\""
  }

  /** A quoted string never holds a raw line break. */
  lemma QuoteSingleLine(s: string)
    ensures '\n' !in Quote(s)
  {
  }

  /** The characters of a JSON string literal between its quotes (the JSON grammar's escapes). */
  function Unescape(t: string): Option<string> {
    if t == [] then Some([])
    else if t[0] == '"' || t[0] as int < 0x20 then None
    else if t[0] != '\\' then Prepend(t[0], Unescape(t[1..]))
    else if |t| < 2 then None
    else
      var e := t[1];
      if e == 'b' then Prepend('\U{0008}', Unescape(t[2..]))
      else if e == 't' then Prepend('\t', Unescape(t[2..]))
      else if e == 'n' then Prepend('\n', Unescape(t[2..]))
      else if e == 'f' then Prepend('\U{000C}', Unescape(t[2..]))
      else if e == 'r' then Prepend('\r', Unescape(t[2..]))
      else if e == '"' || e == '\\' || e == '/' then Prepend(e, Unescape(t[2..]))
      else if e == 'u' && |t| >= 6 then
        match (HexValue(t[2]), HexValue(t[3]), HexValue(t[4]), HexValue(t[5]))
        case (Some(a), Some(b), Some(c), Some(d)) =>
          var v := ((a * 16 + b) * 16 + c) * 16 + d;
          if 0xD800 <= v < 0xE000 then None else Prepend(v as char, Unescape(t[6..]))
        case _ => None
      else None
  }

  function Prepend(c: char, r: Option<string>): Option<string> {
    match r
    case None => None
    case Some(s) => Some([c] + s)
  }

  /** Reads a JSON string literal back (`JSON.parse` of a string). */
  function Unquote(q: string): Option<string> {
    if |q| >= 2 && q[0] == '"' && q[|q| - 1] == '"' then Unescape(q[1..|q| - 1]) else None
  }

  lemma UnescapeChar(c: char, rest: string)
    ensures Unescape(EscapeChar(c) + rest) == Prepend(c, Unescape(rest))
  {
    var e := EscapeChar(c) + rest;
    if c as int < 0x20 && c != '\U{0008}' && c != '\t' && c != '\n' && c != '\U{000C}' && c != '\r' {
      assert e[6..] == rest;
      assert e[2] == '0' && e[3] == '0';
      assert HexValue(e[4]) == Some(c as int / 16) && HexValue(e[5]) == Some(c as int % 16);
    } else if EscapeChar(c) == [c] {
      assert e[1..] == rest;
    } else {
      assert e[2..] == rest;
    }
  }

  lemma {:induction false} UnescapeEscape(s: string, rest: string)
    ensures Unescape(Escape(s) + rest) == Prepend2(s, Unescape(rest))
  {
    if s == [] {
      assert Escape(s) + rest == rest;
      if Unescape(rest).Some? {
        assert s + Unescape(rest).value == Unescape(rest).value;
      }
    } else {
      var tail := Escape(s[1..]) + rest;
      assert Escape(s) + rest == EscapeChar(s[0]) + tail;
      UnescapeChar(s[0], tail);
      UnescapeEscape(s[1..], rest);
      PrependBoth(s[0], s[1..], Unescape(rest));
      assert [s[0]] + s[1..] == s;
    }
  }

  lemma PrependBoth(c: char, t: string, x: Option<string>)
    ensures Prepend(c, Prepend2(t, x)) == Prepend2([c] + t, x)
  {
    if x.Some? {
      assert [c] + (t + x.value) == [c] + t + x.value;
    }
  }

  function Prepend2(s: string, r: Option<string>): Option<string> {
    match r
    case None => None
    case Some(t) => Some(s + t)
  }

  /** Round trip: the literal `JSON.stringify` writes for a string reads back as that string. */
  lemma UnquoteQuote(s: string)
    ensures Unquote(Quote(s)) == Some(s)
  {
    var q := Quote(s);
    assert q[1..|q| - 1] == Escape(s) + [];
    UnescapeEscape(s, []);
    assert s + [] == s;
  }

  /** One property line of `JSON.stringify(record, null, 2)`. */
  function RecordLine(h: Header, last: bool): string {
    "  " + Quote(h.key) + ": " + Quote(h.value) + (if last then "" else ",")
  }

  function RecordLines(m: seq<Header>): (ls: seq<string>)
    ensures |ls| == |m|
  {
    seq(|m|, i requires 0 <= i < |m| => RecordLine(m[i], i == |m| - 1))
  }

  /** `JSON.stringify(record, null, 2)` for a record of strings given as its entries in order. */
  function StringifyRecord(m: seq<Header>): string {
    if m == [] then "{}" else Strings.Join(["{"] + RecordLines(m) + ["}"], "\n")
  }

  /** Each property of a non-empty record sits on its own line, in order, between `{` and `}`. */
  lemma RecordOnePropertyPerLine(m: seq<Header>)
    requires m != []
    ensures Strings.Split(StringifyRecord(m), '\n') == ["{"] + RecordLines(m) + ["}"]
  {
    var ls := ["{"] + RecordLines(m) + ["}"];
    forall i | 0 <= i < |ls|
      ensures '\n' !in ls[i]
    {
      if 0 < i < |ls| - 1 {
        RecordLineSingle(m[i - 1], i == |m|);
      }
    }
    Strings.SplitJoin(ls, '\n');
  }

  lemma RecordLineSingle(h: Header, last: bool)
    ensures '\n' !in RecordLine(h, last)
  {
    QuoteSingleLine(h.key);
    QuoteSingleLine(h.value);
  }

  /** A JSON value; objects list their members in property order, numbers are integers. */
  datatype Value =
    | JNull
    | JBool(b: bool)
    | JNum(n: int)
    | JString(s: string)
    | JArray(items: seq<Value>)
    | JObject(members: seq<Member>)

  datatype Member = Member(name: string, value: Value)

  function Digits(n: nat): (r: string)
    ensures r != [] && forall i :: 0 <= i < |r| ==> '0' <= r[i] <= '9'
  {
    if n < 10 then [('0' as int + n) as char] else Digits(n / 10) + [('0' as int + n % 10) as char]
  }

  /** `Number.prototype.toString()` of an integer. */
  function NumberText(n: int): string {
    if n < 0 then "-" + Digits(-n) else Digits(n)
  }

  /** `JSON.stringify(value)` with no indentation. */
  function Stringify(v: Value): (r: string)
    ensures r != []
    ensures forall i :: 0 <= i < |r| ==> r[i] as int >= 0x20
    decreases v
  {
    match v
    case JNull => "null"
    case JBool(b) => if b then "true" else "false"
    case JNum(n) => NumberText(n)
    case JString(s) => Quote(s)
    case JArray(items) =>
      "[" + JoinPrintable(seq(|items|, i requires 0 <= i < |items| => Stringify(items[i]))) + "]"
    case JObject(members) =>
      "{" + JoinPrintable(seq(|members|, i requires 0 <= i < |members| =>
        assert members[i] in members;
        Quote(members[i].name) + ":" + Stringify(members[i].value))) + "}"
  }

  /** Comma-joined pieces, none of which holds a control character. */
  function JoinPrintable(xs: seq<string>): (r: string)
    requires forall i, j :: 0 <= i < |xs| && 0 <= j < |xs[i]| ==> xs[i][j] as int >= 0x20
    ensures r == Strings.Join(xs, ",")
    ensures forall i :: 0 <= i < |r| ==> r[i] as int >= 0x20
  {
    if |xs| == 0 then []
    else if |xs| == 1 then xs[0]
    else
      var t := JoinPrintable(xs[1..]);
      xs[0] + "," + t
  }

  /** Compact JSON text is a single line. */
  lemma StringifySingleLine(v: Value)
    ensures '\n' !in Stringify(v)
  {
  }

  /** A string value is written exactly as a quoted string, and reads back. */
  lemma StringifyString(s: string)
    ensures Unquote(Stringify(JString(s))) == Some(s)
  {
    UnquoteQuote(s);
  }
}
