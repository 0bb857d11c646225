/** `generateJsXhr`: an `XMLHttpRequest` script as a template literal. */
module JsXhrCodegen {
  import opened Wrappers
  import opened Types
  import opened Templates
  import Json

  const Prelude := "const xhr = new XMLHttpRequest();\nxhr.open(\""
  const BetweenArgs := "\", \""
  const AfterOpen := "\");\n"
  const Handlers := "\nxhr.onload = () => {\n  if (xhr.status >= 200 && xhr.status < 300) {\n    console.log(xhr.responseText);\n  } else {\n    console.error(\"Request failed:\", xhr.statusText);\n  }\n};\nxhr.onerror = () => console.error(\"Network error\");\n"
  const SendOpen := "xhr.send("
  const SendClose := ");"
  const SendEmpty := "xhr.send();"

  const LineStart := "xhr.setRequestHeader(\""
  const LineMid := "\", \""
  const LineEnd := "\");"

  /** The closing call: the body as a JSON string literal when it is non-empty, whatever the method. */
  function SendCall(body: Option<string>): seq<Piece> {
    if Truthy(body) then Three(SendOpen, BodySlot, Json.Quote(body.value), SendClose) else [Lit(SendEmpty)]
  }

  function XhrTemplate(req: Request): seq<Piece> {
    Five(Prelude, MethodSlot, req.httpMethod, BetweenArgs, UrlSlot, req.url, AfterOpen)
    + HeaderLines(req.headers, LineStart, LineMid, LineEnd)
    + [Lit(Handlers)] + SendCall(req.body)
  }

  /** `generateJsXhr(req)`: no variable substitution; only the body is quoted. */
  function GenerateJsXhr(req: Request): string {
    Render(XhrTemplate(req))
  }

  /** The script is the source's template literal, with one `setRequestHeader` line per header. */
  lemma XhrText(req: Request)
    ensures GenerateJsXhr(req)
      == Prelude + req.httpMethod + BetweenArgs + req.url + AfterOpen
         + HeaderText(req.headers, LineStart, LineMid, LineEnd) + Handlers
         + (if Truthy(req.body) then SendOpen + Json.Quote(req.body.value) + SendClose else SendEmpty)
  {
    var f := Five(Prelude, MethodSlot, req.httpMethod, BetweenArgs, UrlSlot, req.url, AfterOpen);
    var h := HeaderLines(req.headers, LineStart, LineMid, LineEnd);
    var s := SendCall(req.body);
    assert Render(f) == Prelude + req.httpMethod + BetweenArgs + req.url + AfterOpen by {
      FiveRender(Prelude, MethodSlot, req.httpMethod, BetweenArgs, UrlSlot, req.url, AfterOpen);
    }
    assert Render(s) == if Truthy(req.body) then SendOpen + Json.Quote(req.body.value) + SendClose else SendEmpty by {
      if Truthy(req.body) {
        ThreeRender(SendOpen, BodySlot, Json.Quote(req.body.value), SendClose);
      } else {
        LitFacts(SendEmpty);
      }
    }
    HeaderLinesRender(req.headers, LineStart, LineMid, LineEnd);
    LitFacts(Handlers);
    RenderAppend(f, h);
    RenderAppend(f + h, [Lit(Handlers)]);
    RenderAppend(f + h + [Lit(Handlers)], s);
  }

  /**
   * `xhr.open` gets the method and url verbatim; one header line per header in list order,
   * unfiltered; the body is sent, as a JSON string literal, if and only if it is non-empty.
   */
  lemma XhrHoles(req: Request)
    ensures HeaderHolesBetween(Holes(XhrTemplate(req)),
      [Hole(MethodSlot, req.httpMethod), Hole(UrlSlot, req.url)], req.headers,
      if Truthy(req.body) then [Hole(BodySlot, Json.Quote(req.body.value))] else [])
  {
    var f := Five(Prelude, MethodSlot, req.httpMethod, BetweenArgs, UrlSlot, req.url, AfterOpen);
    var h := HeaderLines(req.headers, LineStart, LineMid, LineEnd);
    var s := SendCall(req.body);
    HolesAppend(f + h + [Lit(Handlers)], s);
    HolesAppend(f + h, [Lit(Handlers)]);
    HolesAppend(f, h);
    FiveHoles(Prelude, MethodSlot, req.httpMethod, BetweenArgs, UrlSlot, req.url, AfterOpen);
    LitFacts(Handlers);
    if Truthy(req.body) {
      ThreeHoles(SendOpen, BodySlot, Json.Quote(req.body.value), SendClose);
    } else {
      LitFacts(SendEmpty);
    }
    HeaderHolesBetweenIntro(Holes(f), req.headers, LineStart, LineMid, LineEnd, Holes(s));
    assert Holes(f) + Holes(h) + [] + Holes(s) == Holes(f) + Holes(h) + Holes(s);
  }

  /** The body's literal reads back as the body: the script sends exactly the text in the editor. */
  lemma XhrSendsBody(req: Request)
    requires Truthy(req.body)
    ensures var hs := Holes(XhrTemplate(req)); |hs| > 0 && Json.Unquote(hs[|hs| - 1].text) == Some(req.body.value)
  {
    XhrHoles(req);
    Json.UnquoteQuote(req.body.value);
  }

  /** Everything but the request's text is fixed by the number of headers and whether a body is sent. */
  lemma XhrSkeleton(r1: Request, r2: Request)
    requires |r1.headers| == |r2.headers| && Truthy(r1.body) == Truthy(r2.body)
    ensures Skeleton(XhrTemplate(r1)) == Skeleton(XhrTemplate(r2))
  {
    var f1 := Five(Prelude, MethodSlot, r1.httpMethod, BetweenArgs, UrlSlot, r1.url, AfterOpen);
    var h1 := HeaderLines(r1.headers, LineStart, LineMid, LineEnd);
    var s1 := SendCall(r1.body);
    var f2 := Five(Prelude, MethodSlot, r2.httpMethod, BetweenArgs, UrlSlot, r2.url, AfterOpen);
    var h2 := HeaderLines(r2.headers, LineStart, LineMid, LineEnd);
    var s2 := SendCall(r2.body);
    SkeletonAppend(f1 + h1 + [Lit(Handlers)], s1);
    SkeletonAppend(f1 + h1, [Lit(Handlers)]);
    SkeletonAppend(f1, h1);
    SkeletonAppend(f2 + h2 + [Lit(Handlers)], s2);
    SkeletonAppend(f2 + h2, [Lit(Handlers)]);
    SkeletonAppend(f2, h2);
    FiveSkeleton(Prelude, MethodSlot, r1.httpMethod, BetweenArgs, UrlSlot, r1.url, AfterOpen);
    FiveSkeleton(Prelude, MethodSlot, r2.httpMethod, BetweenArgs, UrlSlot, r2.url, AfterOpen);
    HeaderLinesSkeleton(r1.headers, r2.headers, LineStart, LineMid, LineEnd);
    if Truthy(r1.body) {
      ThreeSkeleton(SendOpen, BodySlot, Json.Quote(r1.body.value), SendClose);
      ThreeSkeleton(SendOpen, BodySlot, Json.Quote(r2.body.value), SendClose);
    }
  }
}
