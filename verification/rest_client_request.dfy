/**
 * The logic of the `useRestClientRequest` hook: the payload sent to the proxy, the
 * route `sendRequest` navigates to, and the reading of that route back into the
 * editor's state when the page loads.
 */
module RestClientRequest {
  import opened Wrappers
  import opened Types
  import Strings
  import Base64
  import FormUrlEncoded
  import OrderedMaps
  import Placeholders
  import Utf8

  /** `HttpMethod`: the methods the editor offers. */
  predicate IsHttpMethod(m: string) {
    m == "GET" || m == "POST" || m == "PUT" || m == "DELETE"
  }

  /**
   * The body test of `runRequest` and `sendRequest`: the body is not blank and the
   * method is neither `GET` nor `HEAD`, compared with letter case.
   */
  predicate SendsBody(httpMethod: string, body: string) {
    !Strings.AllSpace(body) && httpMethod != "GET" && httpMethod != "HEAD"
  }

  /** The same test as the source writes it: `body && body.trim() !== '' && …`. */
  lemma SendsBodyIsTrimTest(httpMethod: string, body: string)
    ensures SendsBody(httpMethod, body)
      <==> body != [] && Strings.Trim(body) != [] && httpMethod != "GET" && httpMethod != "HEAD"
  {
    Strings.TrimEmptyIffAllSpace(body);
  }

  /** Unlike the curl generator, letter case matters: a `get` request sends its body. */
  lemma MethodCaseMatters()
    ensures SendsBody("get", "x") && !SendsBody("GET", "x") && !SendsBody("POST", " \n")
  {
    assert !Strings.AllSpace("x") by {
      assert !Strings.IsSpace("x"[0]);
    }
    assert "get" != "GET" by {
      assert "get"[0] != "GET"[0];
    }
  }

  /** What `runRequest` posts to the proxy. */
  datatype Payload = Payload(httpMethod: string, url: string, headers: seq<Header>, body: Option<string>)

  /**
   * `runRequest`'s payload: url, body and headers are substituted; the headers become an
   * object with `Object.fromEntries`; the body goes along only when `SendsBody` holds.
   */
  function BuildPayload(httpMethod: string, url: string, body: string, headers: seq<Header>,
                        vars: seq<Variable>): (p: Payload)
    ensures p.httpMethod == httpMethod && p.url == Placeholders.ReplaceVariables(url, vars)
    ensures OrderedMaps.Distinct(p.headers)
    ensures forall k ::
      OrderedMaps.Get(p.headers, k) == OrderedMaps.LastValue(Placeholders.ReplaceVariablesInHeaders(headers, vars), k)
    ensures p.body.Some? <==> SendsBody(httpMethod, Placeholders.ReplaceVariables(body, vars))
    ensures p.body.Some? ==> p.body.value == Placeholders.ReplaceVariables(body, vars)
  {
    var b := Placeholders.ReplaceVariables(body, vars);
    Payload(httpMethod, Placeholders.ReplaceVariables(url, vars),
      OrderedMaps.FromEntries(Placeholders.ReplaceVariablesInHeaders(headers, vars)),
      if SendsBody(httpMethod, b) then Some(b) else None)
  }

  /** `Object.fromEntries` does not filter: a header with an empty key still reaches the proxy. */
  lemma PayloadKeepsEmptyKey(httpMethod: string, url: string, body: string)
    ensures OrderedMaps.Get(BuildPayload(httpMethod, url, body, [Header("", "x")], []).headers, "") == Some("x")
  {
    var hs := Placeholders.ReplaceVariablesInHeaders([Header("", "x")], []);
    assert hs[0] == Header(Placeholders.ReplaceVariables("", []), Placeholders.ReplaceVariables("x", []));
    assert Placeholders.ReplaceVariables("x", []) == "x" by {
      Placeholders.NoPlaceholderUnchanged("x", []);
    }
    assert hs == [Header("", "x")];
    assert OrderedMaps.LastValue(hs, "") == Some("x");
  }

  /**
   * The two ways a route can be written: as the source does (standard base64 segments,
   * header values passed through `encodeURIComponent` before `URLSearchParams` encodes
   * them again), and corrected (URL-safe base64 segments, values set as they are).
   */
  datatype Encoding = AsWritten | Corrected

  /** The value `sendRequest` gives `query.set` for a header value. */
  function QueryValue(v: string, enc: Encoding): string {
    if enc == AsWritten then FormUrlEncoded.EncodeUriComponent(v) else v
  }

  /** The `URLSearchParams` after `forEach` over the headers: `set` for each header with key and value. */
  function QueryList(headers: seq<Header>, enc: Encoding): seq<Header> {
    if headers == [] then []
    else
      var q := QueryList(headers[..|headers| - 1], enc);
      var h := headers[|headers| - 1];
      if h.key != [] && h.value != [] then OrderedMaps.SetParam(q, h.key, QueryValue(h.value, enc)) else q
  }

  function QueryValues(hs: seq<Header>, enc: Encoding): (r: seq<Header>)
    ensures |r| == |hs|
  {
    seq(|hs|, i requires 0 <= i < |hs| => Header(hs[i].key, QueryValue(hs[i].value, enc)))
  }

  lemma FromEntriesSnoc(hs: seq<Header>, h: Header)
    ensures OrderedMaps.FromEntries(hs + [h]) == OrderedMaps.Put(OrderedMaps.FromEntries(hs), h.key, h.value)
  {
    assert (hs + [h])[..|hs|] == hs;
  }

  lemma KeptSnoc(hs: seq<Header>, h: Header)
    ensures OrderedMaps.Kept(hs + [h]) == OrderedMaps.Kept(hs) + (if h.key != [] && h.value != [] then [h] else [])
  {
    OrderedMaps.KeptAppend(hs, [h]);
    assert [h][1..] == [];
  }

  lemma QueryValuesSnoc(hs: seq<Header>, h: Header, enc: Encoding)
    ensures QueryValues(hs + [h], enc) == QueryValues(hs, enc) + [Header(h.key, QueryValue(h.value, enc))]
  {
  }

  /**
   * Setting into a fresh query behaves as assigning into an object: exactly the headers
   * with a non-empty key and value, each key once, at its first position, with its last value.
   */
  lemma {:induction false} QueryListIsRecord(headers: seq<Header>, enc: Encoding)
    ensures QueryList(headers, enc) == OrderedMaps.FromEntries(QueryValues(OrderedMaps.Kept(headers), enc))
  {
    if headers != [] {
      var init, h := headers[..|headers| - 1], headers[|headers| - 1];
      assert headers == init + [h];
      QueryListIsRecord(init, enc);
      KeptSnoc(init, h);
      if h.key != [] && h.value != [] {
        var v := QueryValue(h.value, enc);
        var vs := QueryValues(OrderedMaps.Kept(init), enc);
        calc {
          QueryList(headers, enc);
          OrderedMaps.SetParam(QueryList(init, enc), h.key, v);
          { OrderedMaps.SetParamIsPut(QueryList(init, enc), h.key, v); }
          OrderedMaps.Put(OrderedMaps.FromEntries(vs), h.key, v);
          { FromEntriesSnoc(vs, Header(h.key, v)); }
          OrderedMaps.FromEntries(vs + [Header(h.key, v)]);
          { QueryValuesSnoc(OrderedMaps.Kept(init), h, enc); }
          OrderedMaps.FromEntries(QueryValues(OrderedMaps.Kept(init) + [h], enc));
        }
      } else {
        assert OrderedMaps.Kept(headers) == OrderedMaps.Kept(init);
      }
    }
  }

  /** The corrected query holds the headers' values as they are. */
  lemma {:induction false} RawValues(hs: seq<Header>)
    ensures QueryValues(hs, Corrected) == hs
  {
  }

  /** RFC 4648 section 5: `+` becomes `-` and `/` becomes `_`. */
  function UrlSafe(s: string): (r: string)
    ensures |r| == |s| && '/' !in r
    ensures forall i :: 0 <= i < |s| ==> r[i] == if s[i] == '+' then '-' else if s[i] == '/' then '_' else s[i]
  {
    if s == [] then [] else [if s[0] == '+' then '-' else if s[0] == '/' then '_' else s[0]] + UrlSafe(s[1..])
  }

  function FromUrlSafe(s: string): (r: string)
    ensures |r| == |s|
    ensures forall i :: 0 <= i < |s| ==> r[i] == if s[i] == '-' then '+' else if s[i] == '_' then '/' else s[i]
  {
    if s == [] then [] else [if s[0] == '-' then '+' else if s[0] == '_' then '/' else s[0]] + FromUrlSafe(s[1..])
  }

  /** A route segment for a text: `b64EncodeUnicode`, made URL-safe in the corrected route. */
  function Segment(s: string, enc: Encoding): string {
    if enc == AsWritten then Base64.EncodeUnicode(s) else UrlSafe(Base64.EncodeUnicode(s))
  }

  /**
   * `b64DecodeUnicode` of a segment; `None` where it throws. The corrected reading undoes
   * the URL-safe letters and keeps a leading U+FEFF (`ignoreBOM`).
   */
  function ReadSegment(seg: string, enc: Encoding): Option<string> {
    if enc == AsWritten then Base64.DecodeUnicode(seg) else Base64.DecodeUnicodeKeepingBom(FromUrlSafe(seg))
  }

  /** The characters a segment is made of: the base64 alphabet of either kind, and padding. */
  predicate SegmentText(t: string) {
    forall i :: 0 <= i < |t| ==> Base64.IsLetter(t[i]) || t[i] == '=' || t[i] == '-' || t[i] == '_'
  }

  lemma SegmentIsText(s: string, enc: Encoding)
    ensures SegmentText(Segment(s, enc))
    ensures s != [] ==> Segment(s, enc) != []
  {
    var b := Base64.EncodeUnicode(s);
    assert |Utf8.Encode(s)| >= |s|;
    assert forall i :: 0 <= i < |b| ==> Base64.IsLetter(b[i]) || b[i] == '=';
  }

  lemma NoQuestion(t: string)
    requires SegmentText(t)
    ensures '?' !in t
  {
  }

  /**
   * A corrected segment reads back as its text and never holds `/`. As written, a text
   * starting with U+FEFF reads back without it, but its segment always holds `/`; so
   * every segment without `/` reads back as its text.
   */
  lemma ReadSegmentBack(s: string, enc: Encoding)
    ensures ReadSegment(Segment(s, enc), enc) == Some(if enc == AsWritten then Utf8.StripBom(s) else s)
    ensures enc == Corrected ==> '/' !in Segment(s, enc)
    ensures '/' !in Segment(s, enc) ==> ReadSegment(Segment(s, enc), enc) == Some(s)
  {
    if enc == Corrected {
      ReadCorrectedSegment(s);
    } else {
      ReadSegmentAsWritten(s);
    }
  }

  lemma ReadCorrectedSegment(s: string)
    ensures ReadSegment(Segment(s, Corrected), Corrected) == Some(s)
    ensures '/' !in Segment(s, Corrected)
  {
    var b := Base64.EncodeUnicode(s);
    UrlSafeUndone(b);
    assert Segment(s, Corrected) == UrlSafe(b);
    Base64.DecodeEncodeKeepingBom(s);
  }

  /** On standard base64 text, the URL-safe letters are undone exactly. */
  lemma {:induction false} UrlSafeUndone(t: string)
    requires forall i :: 0 <= i < |t| ==> Base64.IsLetter(t[i]) || t[i] == '='
    ensures FromUrlSafe(UrlSafe(t)) == t
  {
    if t != [] {
      UrlSafeUndone(t[1..]);
      var c := if t[0] == '+' then '-' else if t[0] == '/' then '_' else t[0];
      assert UrlSafe(t) == [c] + UrlSafe(t[1..]);
      assert ([c] + UrlSafe(t[1..]))[1..] == UrlSafe(t[1..]);
      assert t == [t[0]] + t[1..];
    }
  }

  lemma ReadSegmentAsWritten(s: string)
    ensures ReadSegment(Segment(s, AsWritten), AsWritten) == Some(Utf8.StripBom(s))
    ensures '/' !in Segment(s, AsWritten) ==> Utf8.StripBom(s) == s
  {
    Base64.DecodeEncodeUnicode(s);
    if s != [] && s[0] == Utf8.ByteOrderMark {
      Base64.BomEncodingHasSlash(s);
    }
  }

  /** The path `sendRequest` builds: `/rest-client/<method>/<url segment>`, then the body segment. */
  function RoutePath(httpMethod: string, url: string, body: string, enc: Encoding): string {
    "/rest-client/" + httpMethod + "/" + Segment(url, enc)
    + (if SendsBody(httpMethod, body) then "/" + Segment(body, enc) else "")
  }

  /** The route: the path, then `?` and the query only when the query is not empty. */
  function Route(httpMethod: string, url: string, body: string, headers: seq<Header>, enc: Encoding): string {
    var q := FormUrlEncoded.Serialize(QueryList(headers, enc));
    if q == [] then RoutePath(httpMethod, url, body, enc) else RoutePath(httpMethod, url, body, enc) + "?" + q
  }

  /** A segment as `sendRequest` computes it: `b64EncodeUnicode`, then (corrected) made URL-safe. */
  method EncodeSegment(text: string, enc: Encoding) returns (seg: string)
    ensures seg == Segment(text, enc)
  {
    seg := Base64.B64EncodeUnicode(text, true);
    if enc == Corrected {
      seg := UrlSafe(seg);
    }
  }

  /** The `forEach` of `sendRequest`: `query.set(key, value)` for each header with key and value. */
  method QueryParams(headers: seq<Header>, enc: Encoding) returns (query: seq<Header>)
    ensures query == QueryList(headers, enc)
  {
    query := [];
    for i := 0 to |headers|
      invariant query == QueryList(headers[..i], enc)
    {
      var h := headers[i];
      assert headers[..i + 1][..i] == headers[..i];
      if h.key != [] && h.value != [] {
        var v := if enc == AsWritten then FormUrlEncoded.EncodeUriComponent(h.value) else h.value;
        query := OrderedMaps.SetParam(query, h.key, v);
      }
    }
    assert headers[..|headers|] == headers;
  }

  /** `pathname.split('/').filter(Boolean)`. */
  function Segments(pathname: string): seq<string> {
    Strings.NonEmpty(Strings.Split(pathname, '/'))
  }

  /** What reading a route does to the editor. */
  datatype Outcome =
    | Ignored                                   // no `rest-client` segment, or no url segment
    | UrlFailed(httpMethod: string)             // the method is set, then decoding the url throws
    | BodyFailed(httpMethod: string, url: string) // method and url are set, then decoding the body throws
    | Loaded(httpMethod: string, url: string, body: Option<string>, headers: seq<Header>)

  /** The effect's reading of a pathname and its search parameters (given as the query text). */
  function DecodeRoute(pathname: string, query: string, enc: Encoding): Outcome {
    DecodePath(Segments(pathname), query, enc)
  }

  /** The effect's reading once the pathname is split into its non-empty segments. */
  function DecodePath(path: seq<string>, query: string, enc: Encoding): Outcome {
    var restIdx := Strings.IndexOf(path, "rest-client");
    if restIdx == -1 || |path| <= restIdx + 2 then Ignored
    else
      var m := path[restIdx + 1];
      var u := ReadSegment(path[restIdx + 2], enc);
      if u.None? then UrlFailed(m)
      else if |path| <= restIdx + 3 then Loaded(m, u.value, None, FormUrlEncoded.Parse(query))
      else
        var b := ReadSegment(path[restIdx + 3], enc);
        if b.None? then BodyFailed(m, u.value) else Loaded(m, u.value, Some(b.value), FormUrlEncoded.Parse(query))
  }

  /** The pathname of a route: what comes before the first `?`. */
  function PathnameOf(route: string): string {
    route[..Strings.Find(route, '?')]
  }

  /** The query of a route: what comes after the first `?`, if any. */
  function QueryOf(route: string): string {
    var i := Strings.Find(route, '?');
    if i < |route| then route[i + 1..] else []
  }

  lemma FindAfter(a: string, b: string)
    requires '?' !in a
    ensures Strings.Find(a + "?" + b, '?') == |a|
  {
    var s := a + "?" + b;
    assert s[..|a|] == a && s[|a|] == '?';
    var i := Strings.Find(s, '?');
    assert i >= |a| by {
      assert forall j :: 0 <= j < |a| ==> s[j] == a[j];
    }
    assert '?' in s[..|a| + 1];
  }

  lemma FindAbsent(a: string)
    requires '?' !in a
    ensures Strings.Find(a, '?') == |a|
  {
  }

  /** Joining segments with a leading `/`. */
  function PathOf(segs: seq<string>): string {
    Strings.Join([""] + segs, "/")
  }

  lemma {:induction false} NonEmptyKeepsAll(xs: seq<string>)
    requires forall i :: 0 <= i < |xs| ==> xs[i] != []
    ensures Strings.NonEmpty(xs) == xs
  {
    if xs != [] {
      NonEmptyKeepsAll(xs[1..]);
    }
  }

  /** Splitting a path of non-empty segments without `/` gives the segments back. */
  lemma SegmentsOfPath(segs: seq<string>)
    requires forall i :: 0 <= i < |segs| ==> segs[i] != [] && '/' !in segs[i]
    ensures Segments(PathOf(segs)) == segs
  {
    SplitPath(segs);
    NonEmptyKeepsAll(segs);
  }

  /** Splitting a path on `/` gives an empty first piece, then the segments. */
  lemma SplitPath(segs: seq<string>)
    requires forall i :: 0 <= i < |segs| ==> '/' !in segs[i]
    ensures Strings.Split(PathOf(segs), '/') == [""] + segs
    ensures Segments(PathOf(segs)) == Strings.NonEmpty(segs)
  {
    SplitPieces(segs);
    NonEmptyCons("", segs);
  }

  lemma SplitPieces(segs: seq<string>)
    requires forall i :: 0 <= i < |segs| ==> '/' !in segs[i]
    ensures Strings.Split(PathOf(segs), '/') == [""] + segs
  {
    var xs := [""] + segs;
    assert Strings.NoneContains(xs, '/') by {
      forall i | 0 <= i < |xs|
        ensures '/' !in xs[i]
      {
        if i > 0 {
          assert xs[i] == segs[i - 1];
        }
      }
    }
    Strings.SplitJoin(xs, '/');
  }

  lemma PathOfCons(x: string, segs: seq<string>)
    requires segs != []
    ensures Strings.Join([x] + segs, "/") == x + "/" + Strings.Join(segs, "/")
  {
    assert ([x] + segs)[1..] == segs;
  }

  lemma PathOfThree(a: string, b: string, c: string)
    ensures PathOf([a, b, c]) == "/" + a + "/" + b + "/" + c
  {
    PathOfCons("", [a, b, c]);
    PathOfCons(a, [b, c]);
    PathOfCons(b, [c]);
    assert [""] + [a, b, c] == [""] + ([a] + [b, c]);
    assert [a, b, c] == [a] + [b, c] && [b, c] == [b] + [c];
  }

  lemma PathOfFour(a: string, b: string, c: string, d: string)
    ensures PathOf([a, b, c, d]) == "/" + a + "/" + b + "/" + c + "/" + d
  {
    PathOfCons("", [a, b, c, d]);
    PathOfCons(a, [b, c, d]);
    PathOfCons(b, [c, d]);
    PathOfCons(c, [d]);
    assert [a, b, c, d] == [a] + [b, c, d] && [b, c, d] == [b] + [c, d] && [c, d] == [c] + [d];
  }

  /** The text of a route path with a url segment and at most one body segment. */
  lemma PathText(m: string, su: string, sb: seq<string>)
    requires |sb| <= 1
    ensures PathOf(["rest-client", m, su] + sb) == "/rest-client/" + m + "/" + su + (if sb == [] then "" else "/" + sb[0])
  {
    if sb == [] {
      assert ["rest-client", m, su] + sb == ["rest-client", m, su];
      PathOfThree("rest-client", m, su);
    } else {
      assert ["rest-client", m, su] + sb == ["rest-client", m, su, sb[0]];
      PathOfFour("rest-client", m, su, sb[0]);
    }
  }

  /** The segments of a route's path. */
  function RouteSegments(httpMethod: string, url: string, body: string, enc: Encoding): seq<string> {
    ["rest-client", httpMethod, Segment(url, enc)] + (if SendsBody(httpMethod, body) then [Segment(body, enc)] else [])
  }

  lemma RoutePathSegments(httpMethod: string, url: string, body: string, enc: Encoding)
    ensures RoutePath(httpMethod, url, body, enc) == PathOf(RouteSegments(httpMethod, url, body, enc))
  {
    var sb := if SendsBody(httpMethod, body) then [Segment(body, enc)] else [];
    PathText(httpMethod, Segment(url, enc), sb);
  }

  lemma NoQuestionInPath(httpMethod: string, url: string, body: string, enc: Encoding)
    requires IsHttpMethod(httpMethod)
    ensures '?' !in RoutePath(httpMethod, url, body, enc)
  {
    SegmentIsText(url, enc);
    SegmentIsText(body, enc);
    NoQuestion(Segment(url, enc));
    NoQuestion(Segment(body, enc));
    assert '?' !in "/rest-client/" && '?' !in httpMethod && '?' !in "/";
  }

  /** What the route's path and query hold, split at the first `?`. */
  lemma RouteParts(httpMethod: string, url: string, body: string, headers: seq<Header>, enc: Encoding)
    requires IsHttpMethod(httpMethod)
    ensures var route := Route(httpMethod, url, body, headers, enc);
      && PathnameOf(route) == RoutePath(httpMethod, url, body, enc)
      && FormUrlEncoded.Parse(QueryOf(route)) == QueryList(headers, enc)
  {
    NoQuestionInPath(httpMethod, url, body, enc);
    FormUrlEncoded.ParseSerialize(QueryList(headers, enc));
    SplitAtQuestion(RoutePath(httpMethod, url, body, enc), FormUrlEncoded.Serialize(QueryList(headers, enc)));
  }

  /** A path without `?`, then `?` and a non-empty query: splitting at the first `?` gives both back. */
  lemma SplitAtQuestion(p: string, q: string)
    requires '?' !in p
    ensures var route := if q == [] then p else p + "?" + q;
      PathnameOf(route) == p && QueryOf(route) == q
  {
    if q == [] {
      FindAbsent(p);
      assert p[..|p|] == p;
    } else {
      FindAfter(p, q);
      var r := p + "?" + q;
      assert r[..|p|] == p && r[|p| + 1..] == q;
    }
  }

  /** Reading a pathname whose segments are `rest-client`, a method, a url segment and maybe a body segment. */
  lemma DecodeSegments(pathname: string, query: string, enc: Encoding, m: string, su: string, sb: seq<string>)
    requires |sb| <= 1
    requires Segments(pathname) == ["rest-client", m, su] + sb
    requires ReadSegment(su, enc).Some? && forall j :: 0 <= j < |sb| ==> ReadSegment(sb[j], enc).Some?
    ensures DecodeRoute(pathname, query, enc)
      == Loaded(m, ReadSegment(su, enc).value,
                if sb == [] then None else Some(ReadSegment(sb[0], enc).value), FormUrlEncoded.Parse(query))
  {
    DecodeRestPath(["rest-client", m, su] + sb, query, enc, m, su, sb);
  }

  lemma DecodeRestPath(path: seq<string>, query: string, enc: Encoding, m: string, su: string, sb: seq<string>)
    requires |sb| <= 1 && path == ["rest-client", m, su] + sb
    requires ReadSegment(su, enc).Some? && forall j :: 0 <= j < |sb| ==> ReadSegment(sb[j], enc).Some?
    ensures DecodePath(path, query, enc)
      == Loaded(m, ReadSegment(su, enc).value,
                if sb == [] then None else Some(ReadSegment(sb[0], enc).value), FormUrlEncoded.Parse(query))
  {
    if sb == [] {
      DecodeUrlOnly(path, query, enc, ReadSegment(su, enc).value);
    } else {
      DecodeUrlAndBody(path, query, enc);
    }
  }

  lemma DecodeUrlOnly(path: seq<string>, query: string, enc: Encoding, u: string)
    requires |path| == 3 && path[0] == "rest-client" && ReadSegment(path[2], enc) == Some(u)
    ensures DecodePath(path, query, enc) == Loaded(path[1], u, None, FormUrlEncoded.Parse(query))
  {
    RestAtFront(path);
  }

  lemma DecodeUrlAndBody(path: seq<string>, query: string, enc: Encoding)
    requires |path| == 4 && path[0] == "rest-client"
    requires ReadSegment(path[2], enc).Some? && ReadSegment(path[3], enc).Some?
    ensures DecodePath(path, query, enc)
      == Loaded(path[1], ReadSegment(path[2], enc).value, Some(ReadSegment(path[3], enc).value), FormUrlEncoded.Parse(query))
  {
    RestAtFront(path);
  }

  lemma RestAtFront(path: seq<string>)
    requires path != [] && path[0] == "rest-client"
    ensures Strings.IndexOf(path, "rest-client") == 0
  {
  }

  /**
   * Reading a route back gives what was sent, provided no segment holds `/`: the method,
   * the url, the body exactly when it was sent, and the query's pairs in order.
   */
  lemma PathSegments(m: string, su: string, sb: seq<string>)
    requires |sb| <= 1 && m != [] && '/' !in m && su != [] && '/' !in su
    requires forall j :: 0 <= j < |sb| ==> sb[j] != [] && '/' !in sb[j]
    ensures Segments(PathOf(["rest-client", m, su] + sb)) == ["rest-client", m, su] + sb
  {
    var segs := ["rest-client", m, su] + sb;
    assert '/' !in "rest-client";
    forall i | 0 <= i < |segs|
      ensures segs[i] != [] && '/' !in segs[i]
    {
      if i >= 3 {
        assert segs[i] == sb[i - 3];
      }
    }
    SegmentsOfPath(segs);
  }

  lemma PathnameOfRoute(httpMethod: string, url: string, body: string, headers: seq<Header>, enc: Encoding)
    requires IsHttpMethod(httpMethod)
    ensures PathnameOf(Route(httpMethod, url, body, headers, enc)) == PathOf(RouteSegments(httpMethod, url, body, enc))
  {
    RouteParts(httpMethod, url, body, headers, enc);
    RoutePathSegments(httpMethod, url, body, enc);
  }

  /** The path of a route splits into its segments when no segment holds `/`. */
  lemma RouteSegmentsBack(httpMethod: string, url: string, body: string, enc: Encoding)
    requires IsHttpMethod(httpMethod) && url != []
    requires '/' !in Segment(url, enc) && (SendsBody(httpMethod, body) ==> '/' !in Segment(body, enc))
    ensures Segments(PathOf(RouteSegments(httpMethod, url, body, enc))) == RouteSegments(httpMethod, url, body, enc)
  {
    var sb := if SendsBody(httpMethod, body) then [Segment(body, enc)] else [];
    SegmentIsText(url, enc);
    if SendsBody(httpMethod, body) {
      assert body != [];
      SegmentIsText(body, enc);
    }
    assert '/' !in httpMethod && httpMethod != [];
    PathSegments(httpMethod, Segment(url, enc), sb);
  }

  lemma RoundTrip(httpMethod: string, url: string, body: string, headers: seq<Header>, enc: Encoding)
    requires IsHttpMethod(httpMethod) && url != []
    requires '/' !in Segment(url, enc) && (SendsBody(httpMethod, body) ==> '/' !in Segment(body, enc))
    ensures var route := Route(httpMethod, url, body, headers, enc);
      DecodeRoute(PathnameOf(route), QueryOf(route), enc)
        == Loaded(httpMethod, url, if SendsBody(httpMethod, body) then Some(body) else None, QueryList(headers, enc))
  {
    var route := Route(httpMethod, url, body, headers, enc);
    RouteParts(httpMethod, url, body, headers, enc);
    PathnameOfRoute(httpMethod, url, body, headers, enc);
    RouteSegmentsBack(httpMethod, url, body, enc);
    ReadSegmentBack(url, enc);
    ReadSegmentBack(body, enc);
    var sb := if SendsBody(httpMethod, body) then [Segment(body, enc)] else [];
    DecodeSegments(PathnameOf(route), QueryOf(route), enc, httpMethod, Segment(url, enc), sb);
  }

  /** With the source's encoding the round trip holds whenever the base64 text holds no `/`. */
  lemma RouteRoundTrip(httpMethod: string, url: string, body: string, headers: seq<Header>)
    requires IsHttpMethod(httpMethod) && url != []
    requires '/' !in Base64.EncodeUnicode(url)
    requires SendsBody(httpMethod, body) ==> '/' !in Base64.EncodeUnicode(body)
    ensures var route := Route(httpMethod, url, body, headers, AsWritten);
      DecodeRoute(PathnameOf(route), QueryOf(route), AsWritten)
        == Loaded(httpMethod, url, if SendsBody(httpMethod, body) then Some(body) else None,
                  OrderedMaps.FromEntries(QueryValues(OrderedMaps.Kept(headers), AsWritten)))
  {
    RoundTrip(httpMethod, url, body, headers, AsWritten);
    QueryListIsRecord(headers, AsWritten);
  }

  /**
   * The corrected route reads back for every non-empty url and every body, and the
   * headers come back as they were entered (key and value non-empty, last value wins).
   */
  lemma CorrectedRoundTrip(httpMethod: string, url: string, body: string, headers: seq<Header>)
    requires IsHttpMethod(httpMethod) && url != []
    ensures var route := Route(httpMethod, url, body, headers, Corrected);
      DecodeRoute(PathnameOf(route), QueryOf(route), Corrected)
        == Loaded(httpMethod, url, if SendsBody(httpMethod, body) then Some(body) else None,
                  OrderedMaps.FromEntries(OrderedMaps.Kept(headers)))
  {
    ReadSegmentBack(url, Corrected);
    ReadSegmentBack(body, Corrected);
    RoundTrip(httpMethod, url, body, headers, Corrected);
    QueryListIsRecord(headers, Corrected);
    RawValues(OrderedMaps.Kept(headers));
  }

  /** `"???"` has the base64 text `Pz8/`: its last letter is the path separator. */
  lemma QuestionMarksEncoding()
    ensures Base64.EncodeUnicode("???") == "Pz8/"
  {
    var b: seq<Utf8.byte> := [63, 63, 63];
    assert Utf8.Encode("???") == b by {
      Utf8.EncodeAscii("???");
    }
    assert Base64.EncodeData(b) == "Pz8/" by {
      assert b[3..] == [];
      assert Base64.SixBits(b) == [15, 51, 60, 63];
      assert Base64.Letter(15) == 'P' && Base64.Letter(51) == 'z' && Base64.Letter(60) == '8' && Base64.Letter(63) == '/';
    }
  }

  lemma Pz8Bytes()
    ensures Base64.ForgivingDecode("Pz8") == Some([63, 63])
  {
    Base64.NoWhitespaceKept("Pz8");
    assert Base64.StripPadding("Pz8") == "Pz8";
    assert Base64.AllLetters("Pz8");
    assert Base64.Index('P') == 15 && Base64.Index('z') == 51 && Base64.Index('8') == 60;
    assert Base64.Indices("Pz8") == [15, 51, 60];
  }

  /** What is left of it once the `/` is cut off reads as `??`. */
  lemma Pz8Decoding()
    ensures Base64.DecodeUnicode("Pz8") == Some("??")
  {
    Pz8Bytes();
    assert Utf8.Encode("??") == [63, 63] by {
      Utf8.EncodeAscii("??");
    }
    Utf8.DecodeTextEncode("??");
  }

  lemma MethodSegment(httpMethod: string)
    requires IsHttpMethod(httpMethod)
    ensures httpMethod != [] && '/' !in httpMethod && httpMethod != "rest-client"
  {
  }

  lemma NonEmptyCons(x: string, xs: seq<string>)
    ensures Strings.NonEmpty([x] + xs) == (if x == [] then [] else [x]) + Strings.NonEmpty(xs)
  {
    assert ([x] + xs)[1..] == xs;
  }

  lemma NonEmptyPair(a: string, b: string)
    requires (a == [] && b != []) || (a != [] && b == [])
    ensures Strings.NonEmpty([a, b]) == [a + b]
  {
    NonEmptyCons(a, [b]);
    NonEmptyCons(b, []);
    assert [a, b] == [a] + [b] && [b] == [b] + [];
    if a == [] {
      assert a + b == b;
    } else {
      assert a + b == a;
    }
  }

  lemma NonEmptyRoute(httpMethod: string, a: string, b: string)
    requires IsHttpMethod(httpMethod)
    ensures Strings.NonEmpty(["rest-client", httpMethod, a, b]) == ["rest-client", httpMethod] + Strings.NonEmpty([a, b])
  {
    MethodSegment(httpMethod);
    NonEmptyCons("rest-client", [httpMethod, a, b]);
    NonEmptyCons(httpMethod, [a, b]);
    assert ["rest-client", httpMethod, a, b] == ["rest-client"] + [httpMethod, a, b];
    assert [httpMethod, a, b] == [httpMethod] + [a, b];
  }

  /** A route path with one empty segment among the last two: the empty one is dropped. */
  lemma SegmentsSkipEmpty(httpMethod: string, a: string, b: string)
    requires IsHttpMethod(httpMethod) && '/' !in a && '/' !in b
    requires (a == [] && b != []) || (a != [] && b == [])
    ensures Segments(PathOf(["rest-client", httpMethod, a, b])) == ["rest-client", httpMethod, a + b]
  {
    MethodSegment(httpMethod);
    SplitPath(["rest-client", httpMethod, a, b]);
    NonEmptyRoute(httpMethod, a, b);
    NonEmptyPair(a, b);
  }

  /**
   * A url whose base64 text ends in `/` loses its last letters on the way back: the
   * final `/` opens an empty segment that is filtered out, and the route keeps only
   * what precedes it.
   */
  lemma SlashEndedUrlTruncated(httpMethod: string, url: string, body: string, headers: seq<Header>,
                               prefix: string, read: string)
    requires IsHttpMethod(httpMethod) && !SendsBody(httpMethod, body)
    requires Segment(url, AsWritten) == prefix + "/" && prefix != [] && '/' !in prefix
    requires ReadSegment(prefix, AsWritten) == Some(read)
    ensures var route := Route(httpMethod, url, body, headers, AsWritten);
      DecodeRoute(PathnameOf(route), QueryOf(route), AsWritten) == Loaded(httpMethod, read, None, QueryList(headers, AsWritten))
  {
    var route := Route(httpMethod, url, body, headers, AsWritten);
    RouteParts(httpMethod, url, body, headers, AsWritten);
    SlashEndedPath(httpMethod, url, body, prefix);
    DecodeSegments(PathnameOf(route), QueryOf(route), AsWritten, httpMethod, prefix, []);
  }

  /** The final `/` of the url segment leaves an empty last segment, which is skipped. */
  lemma SlashEndedPath(httpMethod: string, url: string, body: string, prefix: string)
    requires IsHttpMethod(httpMethod) && !SendsBody(httpMethod, body)
    requires Segment(url, AsWritten) == prefix + "/" && prefix != [] && '/' !in prefix
    ensures Segments(RoutePath(httpMethod, url, body, AsWritten)) == ["rest-client", httpMethod, prefix]
  {
    assert RoutePath(httpMethod, url, body, AsWritten) == PathOf(["rest-client", httpMethod, prefix, ""]) by {
      var lead := "/rest-client/" + httpMethod + "/";
      assert RoutePath(httpMethod, url, body, AsWritten) == lead + (prefix + "/") + "";
      PathText(httpMethod, prefix, [""]);
      assert ["rest-client", httpMethod, prefix] + [""] == ["rest-client", httpMethod, prefix, ""];
      assert lead + (prefix + "/") + "" == lead + prefix + ("/" + [""][0]);
    }
    SegmentsSkipEmpty(httpMethod, prefix, "");
    assert prefix + [] == prefix;
  }

  /** The route for `GET ???` reads back with the url `??`. */
  lemma SlashSplitsUrl()
    ensures var route := Route("GET", "???", "", [], AsWritten);
      DecodeRoute(PathnameOf(route), QueryOf(route), AsWritten) == Loaded("GET", "??", None, [])
  {
    QuestionMarksEncoding();
    Pz8Decoding();
    assert Segment("???", AsWritten) == "Pz8" + "/";
    SlashEndedUrlTruncated("GET", "???", "", [], "Pz8", "??");
  }

  /**
   * A header value is percent-encoded before the query encodes it again, and the
   * query parser undoes only the second encoding: a value ` ` comes back as `%20`.
   */
  lemma HeaderValuesEncodedTwice()
    ensures var route := Route("GET", "x", "", [Header("a", " ")], AsWritten);
      DecodeRoute(PathnameOf(route), QueryOf(route), AsWritten) == Loaded("GET", "x", None, [Header("a", "%20")])
  {
    assert Base64.EncodeUnicode("x") == "eA==" by {
      Utf8.EncodeAscii("x");
      assert Utf8.Encode("x") == [120];
      assert Base64.SixBits([120]) == [30, 0];
      assert Base64.Letter(30) == 'e' && Base64.Letter(0) == 'A';
    }
    assert Segment("x", AsWritten) == "eA==";
    assert FormUrlEncoded.EncodeUriComponent(" ") == "%20" by {
      Utf8.EncodeAscii(" ");
      assert Utf8.Encode(" ") == [32];
    }
    var hs := [Header("a", " ")];
    assert hs[..0] == [];
    assert QueryList(hs, AsWritten) == [Header("a", "%20")];
    RoundTrip("GET", "x", "", hs, AsWritten);
  }

  /** A body given with an empty url takes the url's place when the route is read back, and the body is lost. */
  lemma EmptyUrlShiftsBody(httpMethod: string, body: string, headers: seq<Header>, enc: Encoding)
    requires IsHttpMethod(httpMethod) && SendsBody(httpMethod, body) && '/' !in Segment(body, enc)
    ensures var route := Route(httpMethod, "", body, headers, enc);
      DecodeRoute(PathnameOf(route), QueryOf(route), enc) == Loaded(httpMethod, body, None, QueryList(headers, enc))
  {
    var route := Route(httpMethod, "", body, headers, enc);
    EmptyUrlSegments(httpMethod, body, headers, enc);
    assert FormUrlEncoded.Parse(QueryOf(route)) == QueryList(headers, enc) by {
      RouteParts(httpMethod, "", body, headers, enc);
    }
    ReadSegmentBack(body, enc);
    DecodeSegments(PathnameOf(route), QueryOf(route), enc, httpMethod, Segment(body, enc), []);
  }

  /** With an empty url the empty segment is skipped, so the body's segment stands second. */
  lemma EmptyUrlSegments(httpMethod: string, body: string, headers: seq<Header>, enc: Encoding)
    requires IsHttpMethod(httpMethod) && SendsBody(httpMethod, body) && '/' !in Segment(body, enc)
    ensures var route := Route(httpMethod, "", body, headers, enc);
      Segments(PathnameOf(route)) == ["rest-client", httpMethod, Segment(body, enc)]
  {
    var route := Route(httpMethod, "", body, headers, enc);
    var x := Segment(body, enc);
    assert PathnameOf(route) == PathOf(["rest-client", httpMethod, [], x]) by {
      assert Segment("", enc) == [] by {
        assert Utf8.Encode("") == [];
      }
      PathnameOfRoute(httpMethod, "", body, headers, enc);
      assert RouteSegments(httpMethod, "", body, enc) == ["rest-client", httpMethod, [], x];
    }
    assert x != [] by {
      assert body != [];
      SegmentIsText(body, enc);
    }
    SegmentsSkipEmpty(httpMethod, [], x);
    assert [] + x == x;
  }

  /** What the page's effect passes to `runRequest` after reading a route. */
  datatype RunArgs = RunArgs(httpMethod: string, url: string, body: string, headers: seq<Header>)

  /** The hook's editor state: the fields the effect and `sendRequest` touch. */
  datatype Editor = Editor(httpMethod: string, url: string, body: string, headers: seq<Header>,
                           error: Option<string>, initialized: bool)

  /**
   * The editor after the effect has read a route with outcome `o`. The fields set before
   * a decoding failure keep their new values; a body segment that is absent leaves the
   * body as it was; `runRequest` clears the error as it starts.
   */
  function Load(e: Editor, o: Outcome): Editor {
    if e.initialized then e
    else match o
      case Ignored => e
      case UrlFailed(m) => e.(httpMethod := m, error := Some("Error decoding URL"))
      case BodyFailed(m, u) => e.(httpMethod := m, url := u, error := Some("Error decoding URL"))
      case Loaded(m, u, b, hs) =>
        e.(httpMethod := m, url := u, body := if b.Some? then b.value else e.body, headers := hs,
           error := None, initialized := true)
  }

  /** The request the effect runs: only when it reads a route for the first time. */
  function RunOf(e: Editor, o: Outcome): Option<RunArgs> {
    if !e.initialized && o.Loaded? then
      Some(RunArgs(o.httpMethod, o.url, if o.body.Some? then o.body.value else "", o.headers))
    else None
  }

  /** The route `sendRequest` navigates to for an editor. */
  function EditorRoute(e: Editor, enc: Encoding): string {
    Route(e.httpMethod, e.url, e.body, e.headers, enc)
  }

  /** Reading the route of an editor back into it, as the page does after `sendRequest`. */
  function Reload(e: Editor, enc: Encoding): Editor {
    var route := EditorRoute(e, enc);
    Load(e.(initialized := false), DecodeRoute(PathnameOf(route), QueryOf(route), enc))
  }

  /**
   * After `sendRequest` and the page load that follows, the corrected editor holds what it
   * held before: same method, url and body, and the headers the query could carry (key and
   * value non-empty, each key once with its last value); it runs that request with the
   * body it sent.
   */
  lemma CorrectedReloadRestores(e: Editor)
    requires IsHttpMethod(e.httpMethod) && e.url != []
    ensures Reload(e, Corrected)
      == e.(headers := OrderedMaps.FromEntries(OrderedMaps.Kept(e.headers)), error := None, initialized := true)
    ensures var route := EditorRoute(e, Corrected);
      RunOf(e.(initialized := false), DecodeRoute(PathnameOf(route), QueryOf(route), Corrected))
        == Some(RunArgs(e.httpMethod, e.url, if SendsBody(e.httpMethod, e.body) then e.body else "",
                        OrderedMaps.FromEntries(OrderedMaps.Kept(e.headers))))
  {
    var route := EditorRoute(e, Corrected);
    var hs := OrderedMaps.FromEntries(OrderedMaps.Kept(e.headers));
    var b := if SendsBody(e.httpMethod, e.body) then Some(e.body) else None;
    assert DecodeRoute(PathnameOf(route), QueryOf(route), Corrected) == Loaded(e.httpMethod, e.url, b, hs) by {
      CorrectedRoundTrip(e.httpMethod, e.url, e.body, e.headers);
    }
    LoadedRestores(e, b, hs);
  }

  /** Loading what an editor sent: the body is either read back or left as it was. */
  lemma LoadedRestores(e: Editor, b: Option<string>, hs: seq<Header>)
    requires b.Some? ==> b.value == e.body
    ensures Load(e.(initialized := false), Loaded(e.httpMethod, e.url, b, hs))
      == e.(headers := hs, error := None, initialized := true)
  {
  }

  /**
   * As written, the same holds where the url's and the sent body's base64 texts contain
   * no `/`, except that each header value comes back percent-encoded.
   */
  lemma ReloadRestores(e: Editor)
    requires IsHttpMethod(e.httpMethod) && e.url != []
    requires '/' !in Base64.EncodeUnicode(e.url)
    requires SendsBody(e.httpMethod, e.body) ==> '/' !in Base64.EncodeUnicode(e.body)
    ensures Reload(e, AsWritten)
      == e.(headers := OrderedMaps.FromEntries(QueryValues(OrderedMaps.Kept(e.headers), AsWritten)),
            error := None, initialized := true)
  {
    var route := EditorRoute(e, AsWritten);
    var hs := OrderedMaps.FromEntries(QueryValues(OrderedMaps.Kept(e.headers), AsWritten));
    var b := if SendsBody(e.httpMethod, e.body) then Some(e.body) else None;
    assert DecodeRoute(PathnameOf(route), QueryOf(route), AsWritten) == Loaded(e.httpMethod, e.url, b, hs) by {
      RouteRoundTrip(e.httpMethod, e.url, e.body, e.headers);
    }
    LoadedRestores(e, b, hs);
  }

  /**
   * The hook's state. `enc` says which route encoding the hook uses: the source's, or
   * the corrected one.
   */
  class RequestState {
    var httpMethod: string
    var url: string
    var body: string
    var headers: seq<Header>
    var error: Option<string>
    var initialized: bool
    const enc: Encoding

    function State(): Editor
      reads this
    {
      Editor(httpMethod, url, body, headers, error, initialized)
    }

    /** The initial state: `GET`, empty url, body and headers, no error. */
    constructor (enc: Encoding)
      ensures State() == Editor("GET", [], [], [], None, false) && this.enc == enc
    {
      httpMethod := "GET";
      url := [];
      body := [];
      headers := [];
      error := None;
      initialized := false;
      this.enc := enc;
    }

    /**
     * The effect that reads the route on page load: the new state is `Load` of the old
     * one and the route's outcome, and it yields the request to run, if any.
     */
    method LoadFromRoute(pathname: string, query: string) returns (run: Option<RunArgs>)
      modifies this
      ensures State() == Load(old(State()), DecodeRoute(pathname, query, enc))
      ensures run == RunOf(old(State()), DecodeRoute(pathname, query, enc))
    {
      run := Apply(DecodeRoute(pathname, query, enc));
    }

    /** The effect's updates for an outcome. */
    method Apply(o: Outcome) returns (run: Option<RunArgs>)
      modifies this
      ensures State() == Load(old(State()), o) && run == RunOf(old(State()), o)
    {
      run := None;
      if initialized {
        return;
      }
      match o
      case Ignored =>
      case UrlFailed(m) =>
        httpMethod := m;
        error := Some("Error decoding URL");
      case BodyFailed(m, u) =>
        httpMethod := m;
        url := u;
        error := Some("Error decoding URL");
      case Loaded(m, u, b, hs) =>
        httpMethod := m;
        url := u;
        if b.Some? {
          body := b.value;
        }
        headers := hs;
        initialized := true;
        error := None;
        run := Some(RunArgs(m, u, if b.Some? then b.value else "", hs));
    }

    /** `sendRequest`: build the route from the editor's state and clear the initialised mark. */
    method SendRequest() returns (route: string)
      modifies this
      ensures route == EditorRoute(old(State()), enc)
      ensures State() == old(State()).(initialized := false)
    {
      var encodedUrl := EncodeSegment(url, enc);
      route := "/rest-client/" + httpMethod + "/" + encodedUrl;
      if SendsBody(httpMethod, body) {
        var encodedBody := EncodeSegment(body, enc);
        route := route + "/" + encodedBody;
      }
      assert route == RoutePath(httpMethod, url, body, enc);
      var query := QueryParams(headers, enc);
      var qs := FormUrlEncoded.Serialize(query);
      if qs != [] {
        route := route + "?" + qs;
      }
      initialized := false;
    }
  }
}
