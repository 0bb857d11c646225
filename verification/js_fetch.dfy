/**
 * `generateJsFetch`: the headers are first folded into an object (key and value both
 * non-empty, last value wins), then a `fetch` call is written as a template literal.
 */
module JsFetchCodegen {
  import opened Wrappers
  import opened Types
  import opened Templates
  import Json
  import Strings
  import OrderedMaps

  const Prelude := "fetch(\""
  const MethodKey := "\", {\n  method: \""
  const HeadersKey := "\",\n  headers: "
  const BodyKey := ",\n  body: "
  const NoBody := "undefined"
  const Trailer := "\n}).then(res => res.json())\n  .then(data => console.log(data))\n  .catch(err => console.error(err));"

  /** The `body` property: a JSON string literal for a non-empty body, whatever the method. */
  function BodyValue(body: Option<string>): seq<Piece> {
    if Truthy(body) then [Hole(BodySlot, Json.Quote(body.value))] else [Lit(NoBody)]
  }

  /** The template literal, given the folded header record. */
  function FetchTemplate(req: Request, record: seq<Header>): seq<Piece> {
    Five(Prelude, UrlSlot, req.url, MethodKey, MethodSlot, req.httpMethod, HeadersKey)
    + [Hole(HeadersSlot, Json.StringifyRecord(record)), Lit(BodyKey)]
    + BodyValue(req.body) + [Lit(Trailer)]
  }

  /** `generateJsFetch(req)`: fold the headers, then fill the template; no variable substitution. */
  method GenerateJsFetch(req: Request) returns (code: string)
    ensures code == Render(FetchTemplate(req, OrderedMaps.FromEntries(OrderedMaps.Kept(req.headers))))
  {
    var headers := OrderedMaps.HeaderRecord(req.headers);
    code := Render(FetchTemplate(req, headers));
  }

  /** The script is the source's template literal. */
  lemma FetchText(req: Request, record: seq<Header>)
    ensures Render(FetchTemplate(req, record))
      == Prelude + req.url + MethodKey + req.httpMethod + HeadersKey + Json.StringifyRecord(record) + BodyKey
         + (if Truthy(req.body) then Json.Quote(req.body.value) else NoBody) + Trailer
  {
    var f := Five(Prelude, UrlSlot, req.url, MethodKey, MethodSlot, req.httpMethod, HeadersKey);
    var rec := Json.StringifyRecord(record);
    var m := [Hole(HeadersSlot, rec), Lit(BodyKey)];
    var b := BodyValue(req.body);
    var bt := if Truthy(req.body) then Json.Quote(req.body.value) else NoBody;
    var rf := Prelude + req.url + MethodKey + req.httpMethod + HeadersKey;
    FiveRender(Prelude, UrlSlot, req.url, MethodKey, MethodSlot, req.httpMethod, HeadersKey);
    assert Render(m) == rec + BodyKey by {
      assert m[1..] == [Lit(BodyKey)];
      LitFacts(BodyKey);
    }
    assert Render(b) == bt by {
      if Truthy(req.body) {
        assert b[1..] == [];
      } else {
        LitFacts(NoBody);
      }
    }
    LitFacts(Trailer);
    RenderAppend(f, m);
    RenderAppend(f + m, b);
    RenderAppend(f + m + b, [Lit(Trailer)]);
    assert Render(FetchTemplate(req, record)) == rf + (rec + BodyKey) + bt + Trailer;
    assert rf + (rec + BodyKey) == rf + rec + BodyKey;
  }

  /**
   * The url and the method are inserted verbatim, then the header object (the fold of
   * `HeaderRecord`), then the body as a JSON literal if and only if it is non-empty.
   */
  lemma FetchHoles(req: Request, record: seq<Header>)
    ensures Holes(FetchTemplate(req, record))
      == [Hole(UrlSlot, req.url), Hole(MethodSlot, req.httpMethod), Hole(HeadersSlot, Json.StringifyRecord(record))]
         + (if Truthy(req.body) then [Hole(BodySlot, Json.Quote(req.body.value))] else [])
  {
    var f := Five(Prelude, UrlSlot, req.url, MethodKey, MethodSlot, req.httpMethod, HeadersKey);
    var m := [Hole(HeadersSlot, Json.StringifyRecord(record)), Lit(BodyKey)];
    var b := BodyValue(req.body);
    assert Holes(FetchTemplate(req, record)) == Holes(f) + Holes(m) + Holes(b) by {
      LitFacts(Trailer);
      HolesAppend(f + m + b, [Lit(Trailer)]);
      HolesAppend(f + m, b);
      HolesAppend(f, m);
    }
    assert Holes(f) == [Hole(UrlSlot, req.url), Hole(MethodSlot, req.httpMethod)] by {
      FiveHoles(Prelude, UrlSlot, req.url, MethodKey, MethodSlot, req.httpMethod, HeadersKey);
    }
    assert Holes(m) == [m[0]] by {
      assert m[1..] == [Lit(BodyKey)];
      LitFacts(BodyKey);
    }
    assert Holes(b) == if Truthy(req.body) then [Hole(BodySlot, Json.Quote(req.body.value))] else [] by {
      if Truthy(req.body) {
        assert b[1..] == [];
      } else {
        LitFacts(NoBody);
      }
    }
  }

  /** The body literal reads back as the body. */
  lemma FetchSendsBody(req: Request)
    requires Truthy(req.body)
    ensures Json.Unquote(Render(BodyValue(req.body))) == Some(req.body.value)
  {
    var b := BodyValue(req.body);
    assert b[1..] == [];
    assert Render(b) == Json.Quote(req.body.value) + Render([]);
    assert Json.Quote(req.body.value) + [] == Json.Quote(req.body.value);
    Json.UnquoteQuote(req.body.value);
  }

  /** Everything but the request's text is fixed by whether a body is sent. */
  lemma FetchSkeleton(r1: Request, m1: seq<Header>, r2: Request, m2: seq<Header>)
    requires Truthy(r1.body) == Truthy(r2.body)
    ensures Skeleton(FetchTemplate(r1, m1)) == Skeleton(FetchTemplate(r2, m2))
  {
    var f1 := Five(Prelude, UrlSlot, r1.url, MethodKey, MethodSlot, r1.httpMethod, HeadersKey);
    var a1 := [Hole(HeadersSlot, Json.StringifyRecord(m1)), Lit(BodyKey)];
    var b1 := BodyValue(r1.body);
    var f2 := Five(Prelude, UrlSlot, r2.url, MethodKey, MethodSlot, r2.httpMethod, HeadersKey);
    var a2 := [Hole(HeadersSlot, Json.StringifyRecord(m2)), Lit(BodyKey)];
    var b2 := BodyValue(r2.body);
    SkeletonAppend(f1 + a1 + b1, [Lit(Trailer)]);
    SkeletonAppend(f1 + a1, b1);
    SkeletonAppend(f1, a1);
    SkeletonAppend(f2 + a2 + b2, [Lit(Trailer)]);
    SkeletonAppend(f2 + a2, b2);
    SkeletonAppend(f2, a2);
    FiveSkeleton(Prelude, UrlSlot, r1.url, MethodKey, MethodSlot, r1.httpMethod, HeadersKey);
    FiveSkeleton(Prelude, UrlSlot, r2.url, MethodKey, MethodSlot, r2.httpMethod, HeadersKey);
    assert a1[1..] == a2[1..] == [Lit(BodyKey)];
    assert b1[1..] == b2[1..] == [];
  }
}
