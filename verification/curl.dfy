/**
 * `generateCurl`: the only generator that substitutes variables first. It collects the
 * command's parts in an array (method, one `-H` per header with a non-blank key, the
 * body for methods other than GET and HEAD, the url) and joins them with line
 * continuations.
 */
module CurlCodegen {
  import opened Wrappers
  import opened Types
  import Strings
  import Json
  import RequestSubstitution

  /** `s.replace(/c/g, by)` for a one-character pattern. */
  function ReplaceAll(s: string, c: char, with: string): string {
    if s == [] then [] else (if s[0] == c then with else [s[0]]) + ReplaceAll(s[1..], c, with)
  }

  lemma {:induction false} ReplaceAllAppend(a: string, b: string, c: char, with: string)
    ensures ReplaceAll(a + b, c, with) == ReplaceAll(a, c, with) + ReplaceAll(b, c, with)
  {
    if a == [] {
      assert a + b == b;
    } else {
      assert (a + b)[1..] == a[1..] + b;
      ReplaceAllAppend(a[1..], b, c, with);
    }
  }

  /** `escapeShell`: backslashes are doubled first, then quotes and newlines are escaped. */
  function EscapeShell(s: string): string {
    ReplaceAll(ReplaceAll(ReplaceAll(s, '\\', "\\\\"), '"', "\\\""), '\n', "\\n")
  }

  /** How one character comes out of `escapeShell`. */
  function EscapeOne(c: char): string {
    if c == '\\' then "\\\\" else if c == '"' then "\\\"" else if c == '\n' then "\\n" else [c]
  }

  /**
   * Character by character escaping: a reference for the three chained passes. The output
   * has no raw line break, and every quote in it is escaped by the character before it.
   */
  function EscapeEach(s: string): (r: string)
    ensures '\n' !in r
    ensures forall i :: 0 <= i < |r| && r[i] == '"' ==> i > 0 && r[i - 1] == '\\'
  {
    if s == [] then []
    else
      var e := EscapeOne(s[0]);
      var t := EscapeEach(s[1..]);
      assert forall i :: 0 <= i < |e| && e[i] == '"' ==> i > 0 && e[i - 1] == '\\';
      assert forall i :: |e| <= i < |e + t| ==> (e + t)[i] == t[i - |e|];
      e + t
  }

  lemma EscapeShellAppend(a: string, b: string)
    ensures EscapeShell(a + b) == EscapeShell(a) + EscapeShell(b)
  {
    var a1, b1 := ReplaceAll(a, '\\', "\\\\"), ReplaceAll(b, '\\', "\\\\");
    var a2, b2 := ReplaceAll(a1, '"', "\\\""), ReplaceAll(b1, '"', "\\\"");
    ReplaceAllAppend(a, b, '\\', "\\\\");
    ReplaceAllAppend(a1, b1, '"', "\\\"");
    ReplaceAllAppend(a2, b2, '\n', "\\n");
  }

  lemma ReplaceAllOne(x: char, c: char, with: string)
    ensures ReplaceAll([x], c, with) == if x == c then with else [x]
  {
    assert [x][1..] == [];
    var w := if x == c then with else [x];
    assert ReplaceAll([x], c, with) == w + ReplaceAll([], c, with);
    assert w + [] == w;
  }

  lemma EscapeShellOne(c: char)
    ensures EscapeShell([c]) == EscapeOne(c)
  {
    ReplaceAllOne(c, '\\', "\\\\");
    if c == '\\' {
      ReplaceAllAppend(['\\'], ['\\'], '"', "\\\"");
      ReplaceAllOne('\\', '"', "\\\"");
      assert "\\\\" == ['\\'] + ['\\'];
      ReplaceAllAppend(['\\'], ['\\'], '\n', "\\n");
      ReplaceAllOne('\\', '\n', "\\n");
    } else if c == '"' {
      ReplaceAllOne('"', '"', "\\\"");
      assert "\\\"" == ['\\'] + ['"'];
      ReplaceAllAppend(['\\'], ['"'], '\n', "\\n");
      ReplaceAllOne('\\', '\n', "\\n");
      ReplaceAllOne('"', '\n', "\\n");
    } else {
      ReplaceAllOne(c, '"', "\\\"");
      ReplaceAllOne(c, '\n', "\\n");
    }
  }

  /** The three passes escape each character on its own: inserted backslashes are never doubled. */
  lemma {:induction false} EscapeShellPerChar(s: string)
    ensures EscapeShell(s) == EscapeEach(s)
  {
    if s != [] {
      assert s == [s[0]] + s[1..];
      EscapeShellAppend([s[0]], s[1..]);
      EscapeShellOne(s[0]);
      EscapeShellPerChar(s[1..]);
    }
  }

  /** Reads an escaped text back: `\\`, `\"` and `\n` are the only escapes, a bare quote or line break is refused. */
  function UnescapeShell(t: string): Option<string> {
    if t == [] then Some([])
    else if t[0] == '"' || t[0] == '\n' then None
    else if t[0] != '\\' then Json.Prepend(t[0], UnescapeShell(t[1..]))
    else if |t| < 2 then None
    else if t[1] == '\\' || t[1] == '"' then Json.Prepend(t[1], UnescapeShell(t[2..]))
    else if t[1] == 'n' then Json.Prepend('\n', UnescapeShell(t[2..]))
    else None
  }

  lemma UnescapeOne(c: char, rest: string)
    ensures UnescapeShell(EscapeOne(c) + rest) == Json.Prepend(c, UnescapeShell(rest))
  {
    var t := EscapeOne(c) + rest;
    if |EscapeOne(c)| == 2 {
      assert t[2..] == rest;
    } else {
      assert t[1..] == rest;
    }
  }

  /** Escaping loses nothing: the escaped text reads back as the original. */
  lemma {:induction false} UnescapeEscapeShell(s: string)
    ensures UnescapeShell(EscapeShell(s)) == Some(s)
  {
    EscapeShellPerChar(s);
    if s != [] {
      UnescapeOne(s[0], EscapeEach(s[1..]));
      UnescapeEscapeShell(s[1..]);
      EscapeShellPerChar(s[1..]);
      assert [s[0]] + s[1..] == s;
    }
  }

  /** `parts.join(' \\\n  ')`: a space, a backslash, a line break and two spaces. */
  const Separator := " \\\n  "

  /** The first part: `curl -X` and the method upper-cased (ASCII letters). */
  function MethodPart(m: string): string {
    "curl -X " + Strings.ToUpperAscii(m)
  }

  /** `-H "key: value"`, key and value escaped. */
  function HeaderPart(h: Header): string {
    "-H \"" + EscapeShell(h.key) + ": " + EscapeShell(h.value) + "\""
  }

  /** `-d 'body'`: the body is not escaped. */
  function BodyPart(body: string): string {
    "-d '" + body + "'"
  }

  /** `headers.filter((h) => h.key.trim() !== '')`. */
  function NonBlankKeys(hs: seq<Header>): (r: seq<Header>)
    ensures |r| <= |hs|
  {
    if hs == [] then []
    else (if !Blank(hs[0].key) then [hs[0]] else []) + NonBlankKeys(hs[1..])
  }

  /** `s.trim() === ''`, stated as "only white space" (`BlankIsTrimEmpty` shows the two agree). */
  predicate Blank(s: string) {
    Strings.AllSpace(s)
  }

  /** Exactly the headers whose key is not blank are kept (the order is that of the list). */
  lemma {:induction false} NonBlankKeysMembers(hs: seq<Header>)
    ensures forall h :: h in NonBlankKeys(hs) <==> h in hs && !Blank(h.key)
  {
    if hs != [] {
      NonBlankKeysMembers(hs[1..]);
      assert hs == [hs[0]] + hs[1..];
      assert forall h :: h in hs <==> h == hs[0] || h in hs[1..];
    }
  }

  /** The source's test: a text is blank exactly when trimming leaves nothing. */
  lemma BlankIsTrimEmpty(s: string)
    ensures Blank(s) <==> Strings.Trim(s) == []
  {
    Strings.TrimEmptyIffAllSpace(s);
  }

  lemma {:induction false} NonBlankKeysAppend(a: seq<Header>, b: seq<Header>)
    ensures NonBlankKeys(a + b) == NonBlankKeys(a) + NonBlankKeys(b)
  {
    if a == [] {
      assert a + b == b;
    } else {
      assert (a + b)[1..] == a[1..] + b;
      NonBlankKeysAppend(a[1..], b);
    }
  }

  function HeaderParts(hs: seq<Header>): (r: seq<string>)
    ensures |r| == |hs|
  {
    seq(|hs|, i requires 0 <= i < |hs| => HeaderPart(hs[i]))
  }

  /** `/^(GET|HEAD)$/i`: the method is GET or HEAD in any letter case. */
  predicate GetOrHead(m: string) {
    Strings.ToUpperAscii(m) == "GET" || Strings.ToUpperAscii(m) == "HEAD"
  }

  /** `hasBody`: a body that is not blank, on a method other than GET and HEAD. */
  predicate HasBody(r: Request) {
    Truthy(r.body) && !Blank(r.body.value) && !GetOrHead(r.httpMethod)
  }

  /** The parts of the command for an already substituted request, in the order they are pushed. */
  function CurlParts(r: Request): seq<string> {
    [MethodPart(r.httpMethod)] + HeaderParts(NonBlankKeys(r.headers))
    + (if HasBody(r) then [BodyPart(r.body.value)] else []) + [EscapeShell(r.url)]
  }

  /** `generateCurl(req, vars)`: substitute the variables, then build the command. */
  method GenerateCurl(req: Request, vars: seq<Variable>) returns (command: string)
    ensures command == Strings.Join(CurlParts(RequestSubstitution.ApplyVariablesToRequest(req, vars)), Separator)
  {
    var r := RequestSubstitution.ApplyVariablesToRequest(req, vars);
    command := CurlCommand(r);
  }

  /** Push the parts one by one onto `parts`, then join them. */
  method CurlCommand(r: Request) returns (command: string)
    ensures command == Strings.Join(CurlParts(r), Separator)
  {
    var parts := [MethodPart(r.httpMethod)];
    for i := 0 to |r.headers|
      invariant parts == [MethodPart(r.httpMethod)] + HeaderParts(NonBlankKeys(r.headers[..i]))
    {
      var h := r.headers[i];
      assert r.headers[..i + 1] == r.headers[..i] + [h];
      NonBlankKeysAppend(r.headers[..i], [h]);
      assert [h][1..] == [];
      if !Blank(h.key) {
        assert NonBlankKeys([h]) == [h];
        assert HeaderParts(NonBlankKeys(r.headers[..i + 1])) == HeaderParts(NonBlankKeys(r.headers[..i])) + [HeaderPart(h)];
        parts := parts + [HeaderPart(h)];
      } else {
        assert NonBlankKeys([h]) == [];
        assert NonBlankKeys(r.headers[..i + 1]) == NonBlankKeys(r.headers[..i]);
      }
    }
    assert r.headers[..|r.headers|] == r.headers;
    if HasBody(r) {
      parts := parts + [BodyPart(r.body.value)];
    }
    parts := parts + [EscapeShell(r.url)];
    assert parts == CurlParts(r);
    command := Strings.Join(parts, Separator);
  }

  /**
   * The command for a substituted request: `curl -X METHOD` first, then one `-H` per header
   * whose key is not blank, in order, then `-d` exactly when the body is not blank and the
   * method is not GET or HEAD in any case, and the escaped url last.
   */
  lemma CurlShape(r: Request)
    ensures var parts := CurlParts(r); var kept := NonBlankKeys(r.headers);
      var n := |kept|; var b := if HasBody(r) then 1 else 0;
      && |parts| == n + b + 2
      && parts[0] == "curl -X " + Strings.ToUpperAscii(r.httpMethod)
      && (forall i :: 0 <= i < n ==> parts[1 + i] == HeaderPart(kept[i]))
      && (HasBody(r) ==> parts[n + 1] == "-d '" + r.body.value + "'")
      && parts[|parts| - 1] == EscapeShell(r.url)
  {
    var kept := NonBlankKeys(r.headers);
    var hp := HeaderParts(kept);
    var bp := if HasBody(r) then [BodyPart(r.body.value)] else [];
    var parts := [MethodPart(r.httpMethod)] + hp + bp + [EscapeShell(r.url)];
    assert CurlParts(r) == parts;
    assert |parts| == |kept| + |bp| + 2;
    assert parts[0] == MethodPart(r.httpMethod);
    forall i | 0 <= i < |kept|
      ensures parts[1 + i] == HeaderPart(kept[i])
    {
      assert parts[1 + i] == hp[i];
    }
    assert HasBody(r) ==> parts[|kept| + 1] == bp[0];
    assert parts[|parts| - 1] == EscapeShell(r.url);
  }

  /** Every `-H` part reads back as its header: key and value are escaped, and nothing is lost. */
  lemma HeaderPartReadsBack(h: Header)
    ensures exists k, v ::
      && HeaderPart(h) == "-H \"" + k + ": " + v + "\""
      && UnescapeShell(k) == Some(h.key) && UnescapeShell(v) == Some(h.value)
      && '\n' !in k && '\n' !in v
  {
    UnescapeEscapeShell(h.key);
    UnescapeEscapeShell(h.value);
    EscapeShellPerChar(h.key);
    EscapeShellPerChar(h.value);
    var k, v := EscapeShell(h.key), EscapeShell(h.value);
    assert HeaderPart(h) == "-H \"" + k + ": " + v + "\"";
  }

  /** The GET/HEAD test ignores letter case: `get` and `Head` send no body either. */
  lemma GetOrHeadIgnoresCase()
    ensures GetOrHead("get") && GetOrHead("Head") && GetOrHead("GET")
    ensures !GetOrHead("POST") && !GetOrHead("GETS")
  {
    assert Strings.ToUpperAscii("get") == "GET";
    assert Strings.ToUpperAscii("Head") == "HEAD";
    assert Strings.ToUpperAscii("GET") == "GET";
    assert Strings.ToUpperAscii("POST")[0] == 'P';
    assert |Strings.ToUpperAscii("GETS")| == 4;
  }
}
