/** `generateCSharp`: an `HttpClient` program as one template literal. */
module CSharpCodegen {
  import opened Wrappers
  import opened Types
  import opened Templates

  const Prelude := "using System;\nusing System.Net.Http;\nusing System.Threading.Tasks;\n\nclass Program {\n  static async Task Main() {\n    using var client = new HttpClient();\n    var request = new HttpRequestMessage(HttpMethod."
  const BeforeUrl := ", \""
  const AfterUrl := "\");\n"
  const BodyOpen := "    request.Content = new StringContent(\""
  const BodyClose := "\");"
  const Trailer := "\n\n    var response = await client.SendAsync(request);\n    string result = await response.Content.ReadAsStringAsync();\n    Console.WriteLine(result);\n  }\n}"

  const LineStart := "    request.Headers.Add(\""
  const LineMid := "\", \""
  const LineEnd := "\");"

  /** The `StringContent` line, present only for a non-empty body. */
  function BodyLine(body: Option<string>): seq<Piece> {
    if Truthy(body) then Three(BodyOpen, BodySlot, body.value, BodyClose) else []
  }

  function CSharpTemplate(req: Request): seq<Piece> {
    Five(Prelude, MethodSlot, req.httpMethod, BeforeUrl, UrlSlot, req.url, AfterUrl)
    + HeaderLines(req.headers, LineStart, LineMid, LineEnd)
    + [Lit("\n")] + BodyLine(req.body) + [Lit(Trailer)]
  }

  /** `generateCSharp(req)`: no variable substitution, no escaping. */
  function GenerateCSharp(req: Request): string {
    Render(CSharpTemplate(req))
  }

  /** The program is the source's template literal, with one `Headers.Add` line per header. */
  lemma CSharpText(req: Request)
    ensures GenerateCSharp(req)
      == Prelude + req.httpMethod + BeforeUrl + req.url + AfterUrl
         + HeaderText(req.headers, LineStart, LineMid, LineEnd)
         + "\n" + (if Truthy(req.body) then BodyOpen + req.body.value + BodyClose else "") + Trailer
  {
    var f := Five(Prelude, MethodSlot, req.httpMethod, BeforeUrl, UrlSlot, req.url, AfterUrl);
    var h := HeaderLines(req.headers, LineStart, LineMid, LineEnd);
    var b := BodyLine(req.body);
    var bt := if Truthy(req.body) then BodyOpen + req.body.value + BodyClose else "";
    assert Render(f) == Prelude + req.httpMethod + BeforeUrl + req.url + AfterUrl by {
      FiveRender(Prelude, MethodSlot, req.httpMethod, BeforeUrl, UrlSlot, req.url, AfterUrl);
    }
    HeaderLinesRender(req.headers, LineStart, LineMid, LineEnd);
    assert Render(b) == bt by {
      if Truthy(req.body) {
        ThreeRender(BodyOpen, BodySlot, req.body.value, BodyClose);
      }
    }
    LitFacts("\n");
    LitFacts(Trailer);
    RenderAppend(f, h);
    RenderAppend(f + h, [Lit("\n")]);
    RenderAppend(f + h + [Lit("\n")], b);
    RenderAppend(f + h + [Lit("\n")] + b, [Lit(Trailer)]);
  }

  /**
   * The method goes verbatim after `HttpMethod.`, then the url; every header follows in
   * list order, unfiltered; the body is inserted if and only if it is non-empty.
   */
  lemma CSharpHoles(req: Request)
    ensures HeaderHolesBetween(Holes(CSharpTemplate(req)),
      [Hole(MethodSlot, req.httpMethod), Hole(UrlSlot, req.url)], req.headers,
      if Truthy(req.body) then [Hole(BodySlot, req.body.value)] else [])
  {
    var f := Five(Prelude, MethodSlot, req.httpMethod, BeforeUrl, UrlSlot, req.url, AfterUrl);
    var h := HeaderLines(req.headers, LineStart, LineMid, LineEnd);
    var b := BodyLine(req.body);
    assert Holes(CSharpTemplate(req)) == Holes(f) + Holes(h) + Holes(b) by {
      LitFacts("\n");
      LitFacts(Trailer);
      HolesAppend(f + h + [Lit("\n")] + b, [Lit(Trailer)]);
      HolesAppend(f + h + [Lit("\n")], b);
      HolesAppend(f + h, [Lit("\n")]);
      HolesAppend(f, h);
    }
    assert Holes(f) == [Hole(MethodSlot, req.httpMethod), Hole(UrlSlot, req.url)] by {
      FiveHoles(Prelude, MethodSlot, req.httpMethod, BeforeUrl, UrlSlot, req.url, AfterUrl);
    }
    if Truthy(req.body) {
      ThreeHoles(BodyOpen, BodySlot, req.body.value, BodyClose);
    }
    HeaderHolesBetweenIntro(Holes(f), req.headers, LineStart, LineMid, LineEnd, Holes(b));
  }

  /** Everything but the request's text is fixed by the number of headers and whether a body is sent. */
  lemma CSharpSkeleton(r1: Request, r2: Request)
    requires |r1.headers| == |r2.headers| && Truthy(r1.body) == Truthy(r2.body)
    ensures Skeleton(CSharpTemplate(r1)) == Skeleton(CSharpTemplate(r2))
  {
    var f1 := Five(Prelude, MethodSlot, r1.httpMethod, BeforeUrl, UrlSlot, r1.url, AfterUrl);
    var h1 := HeaderLines(r1.headers, LineStart, LineMid, LineEnd);
    var b1 := BodyLine(r1.body);
    var f2 := Five(Prelude, MethodSlot, r2.httpMethod, BeforeUrl, UrlSlot, r2.url, AfterUrl);
    var h2 := HeaderLines(r2.headers, LineStart, LineMid, LineEnd);
    var b2 := BodyLine(r2.body);
    SkeletonAppend(f1 + h1 + [Lit("\n")] + b1, [Lit(Trailer)]);
    SkeletonAppend(f1 + h1 + [Lit("\n")], b1);
    SkeletonAppend(f1 + h1, [Lit("\n")]);
    SkeletonAppend(f1, h1);
    SkeletonAppend(f2 + h2 + [Lit("\n")] + b2, [Lit(Trailer)]);
    SkeletonAppend(f2 + h2 + [Lit("\n")], b2);
    SkeletonAppend(f2 + h2, [Lit("\n")]);
    SkeletonAppend(f2, h2);
    FiveSkeleton(Prelude, MethodSlot, r1.httpMethod, BeforeUrl, UrlSlot, r1.url, AfterUrl);
    FiveSkeleton(Prelude, MethodSlot, r2.httpMethod, BeforeUrl, UrlSlot, r2.url, AfterUrl);
    HeaderLinesSkeleton(r1.headers, r2.headers, LineStart, LineMid, LineEnd);
    if Truthy(r1.body) {
      ThreeSkeleton(BodyOpen, BodySlot, r1.body.value, BodyClose);
      ThreeSkeleton(BodyOpen, BodySlot, r2.body.value, BodyClose);
    }
  }
}
