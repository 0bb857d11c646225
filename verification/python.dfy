/**
 * `generatePython`: the same header fold as the `fetch` generator, then a `requests`
 * script written as a template literal.
 */
module PythonCodegen {
  import opened Wrappers
  import opened Types
  import opened Templates
  import Json
  import OrderedMaps

  const Prelude := "import requests\n\nurl = \""
  const PayloadKey := "\"\npayload = "
  const NoPayload := "None"
  const HeadersKey := "\nheaders = "
  const CallOpen := "\n\nresponse = requests.request(\""
  const Trailer := "\", url, headers=headers, data=payload)\n\nprint(response.text)"

  /** `payload`: the body as a JSON string literal when it is non-empty, otherwise `None`. */
  function Payload(body: Option<string>): seq<Piece> {
    if Truthy(body) then [Hole(BodySlot, Json.Quote(body.value))] else [Lit(NoPayload)]
  }

  /** The template literal, given the folded header record. */
  function PythonTemplate(req: Request, record: seq<Header>): seq<Piece> {
    Three(Prelude, UrlSlot, req.url, PayloadKey) + Payload(req.body)
    + Five(HeadersKey, HeadersSlot, Json.StringifyRecord(record), CallOpen, MethodSlot, req.httpMethod, Trailer)
  }

  /** `generatePython(req)`: fold the headers, then fill the template; no variable substitution. */
  method GeneratePython(req: Request) returns (code: string)
    ensures code == Render(PythonTemplate(req, OrderedMaps.FromEntries(OrderedMaps.Kept(req.headers))))
  {
    var headers := OrderedMaps.HeaderRecord(req.headers);
    code := Render(PythonTemplate(req, headers));
  }

  /** The text of the payload assignment: the quoted body, or `None`. */
  function PayloadText(body: Option<string>): string {
    if Truthy(body) then Json.Quote(body.value) else NoPayload
  }

  lemma PayloadRender(body: Option<string>)
    ensures Render(Payload(body)) == PayloadText(body)
  {
    var p := Payload(body);
    if Truthy(body) {
      assert p[1..] == [];
      assert Json.Quote(body.value) + [] == Json.Quote(body.value);
    } else {
      LitFacts(NoPayload);
    }
  }

  /** The script is the source's template literal; the call line is the same for every request. */
  lemma PythonText(req: Request, record: seq<Header>)
    ensures Render(PythonTemplate(req, record))
      == Prelude + req.url + PayloadKey + PayloadText(req.body)
         + HeadersKey + Json.StringifyRecord(record) + CallOpen + req.httpMethod + Trailer
  {
    var rec := Json.StringifyRecord(record);
    var u := Three(Prelude, UrlSlot, req.url, PayloadKey);
    var p := Payload(req.body);
    var h := Five(HeadersKey, HeadersSlot, rec, CallOpen, MethodSlot, req.httpMethod, Trailer);
    ThreeRender(Prelude, UrlSlot, req.url, PayloadKey);
    FiveRender(HeadersKey, HeadersSlot, rec, CallOpen, MethodSlot, req.httpMethod, Trailer);
    PayloadRender(req.body);
    RenderAppend(u, p);
    RenderAppend(u + p, h);
    var x := Prelude + req.url + PayloadKey + PayloadText(req.body);
    assert Render(PythonTemplate(req, record)) == x + (HeadersKey + rec + CallOpen + req.httpMethod + Trailer);
    assert x + (HeadersKey + rec + CallOpen + req.httpMethod + Trailer)
      == x + (HeadersKey + rec + CallOpen + req.httpMethod) + Trailer;
    assert x + (HeadersKey + rec + CallOpen + req.httpMethod) == x + (HeadersKey + rec + CallOpen) + req.httpMethod;
    assert x + (HeadersKey + rec + CallOpen) == x + (HeadersKey + rec) + CallOpen;
    assert x + (HeadersKey + rec) == x + HeadersKey + rec;
  }

  /**
   * The url is inserted verbatim, then the payload if and only if the body is non-empty,
   * then the header dict (the fold of `HeaderRecord`), then the method verbatim.
   */
  lemma PythonHoles(req: Request, record: seq<Header>)
    ensures Holes(PythonTemplate(req, record))
      == [Hole(UrlSlot, req.url)]
         + (if Truthy(req.body) then [Hole(BodySlot, Json.Quote(req.body.value))] else [])
         + [Hole(HeadersSlot, Json.StringifyRecord(record)), Hole(MethodSlot, req.httpMethod)]
  {
    var u := Three(Prelude, UrlSlot, req.url, PayloadKey);
    var p := Payload(req.body);
    var h := Five(HeadersKey, HeadersSlot, Json.StringifyRecord(record), CallOpen, MethodSlot, req.httpMethod, Trailer);
    ThreeHoles(Prelude, UrlSlot, req.url, PayloadKey);
    FiveHoles(HeadersKey, HeadersSlot, Json.StringifyRecord(record), CallOpen, MethodSlot, req.httpMethod, Trailer);
    assert Holes(p) == if Truthy(req.body) then [Hole(BodySlot, Json.Quote(req.body.value))] else [] by {
      if Truthy(req.body) {
        assert p[1..] == [];
      } else {
        LitFacts(NoPayload);
      }
    }
    HolesAppend(u, p);
    HolesAppend(u + p, h);
  }

  /** The payload literal reads back as the body. */
  lemma PythonSendsBody(req: Request)
    requires Truthy(req.body)
    ensures Json.Unquote(Render(Payload(req.body))) == Some(req.body.value)
  {
    var p := Payload(req.body);
    assert p[1..] == [];
    assert Render(p) == Json.Quote(req.body.value) + Render([]);
    assert Json.Quote(req.body.value) + [] == Json.Quote(req.body.value);
    Json.UnquoteQuote(req.body.value);
  }

  /** Everything but the request's text is fixed by whether a body is sent. */
  lemma PythonSkeleton(r1: Request, m1: seq<Header>, r2: Request, m2: seq<Header>)
    requires Truthy(r1.body) == Truthy(r2.body)
    ensures Skeleton(PythonTemplate(r1, m1)) == Skeleton(PythonTemplate(r2, m2))
  {
    var u1 := Three(Prelude, UrlSlot, r1.url, PayloadKey);
    var p1 := Payload(r1.body);
    var h1 := Five(HeadersKey, HeadersSlot, Json.StringifyRecord(m1), CallOpen, MethodSlot, r1.httpMethod, Trailer);
    var u2 := Three(Prelude, UrlSlot, r2.url, PayloadKey);
    var p2 := Payload(r2.body);
    var h2 := Five(HeadersKey, HeadersSlot, Json.StringifyRecord(m2), CallOpen, MethodSlot, r2.httpMethod, Trailer);
    ThreeSkeleton(Prelude, UrlSlot, r1.url, PayloadKey);
    ThreeSkeleton(Prelude, UrlSlot, r2.url, PayloadKey);
    FiveSkeleton(HeadersKey, HeadersSlot, Json.StringifyRecord(m1), CallOpen, MethodSlot, r1.httpMethod, Trailer);
    FiveSkeleton(HeadersKey, HeadersSlot, Json.StringifyRecord(m2), CallOpen, MethodSlot, r2.httpMethod, Trailer);
    SkeletonAppend(u1, p1);
    SkeletonAppend(u1 + p1, h1);
    SkeletonAppend(u2, p2);
    SkeletonAppend(u2 + p2, h2);
    assert p1[1..] == p2[1..] == [];
  }
}
