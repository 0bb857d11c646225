/** `generateGo`: a `net/http` program as one template literal. */
module GoCodegen {
  import opened Wrappers
  import opened Types
  import opened Templates

  const Prelude := "package main\n\nimport (\n  \"fmt\"\n  \"io/ioutil\"\n  \"net/http\"\n  \"strings\"\n)\n\nfunc main() {\n  client := &http.Client{}\n  req, err := http.NewRequest(\""
  const BetweenArgs := "\", \""
  const BeforeReader := "\", "
  const ReaderOpen := "strings.NewReader(\""
  const ReaderClose := "\")"
  const AfterCall := ")\n  if err != nil {\n    panic(err)\n  }\n"
  const Trailer := "\n\n  resp, err := client.Do(req)\n  if err != nil {\n    panic(err)\n  }\n  defer resp.Body.Close()\n\n  body, _ := ioutil.ReadAll(resp.Body)\n  fmt.Println(string(body))\n}"

  const LineStart := "  req.Header.Set(\""
  const LineMid := "\", \""
  const LineEnd := "\")"

  /** The third `http.NewRequest` argument: a reader over a non-empty body, otherwise `nil`. */
  function ReaderArg(body: Option<string>): seq<Piece> {
    if Truthy(body) then Three(ReaderOpen, BodySlot, body.value, ReaderClose) else [Lit("nil")]
  }

  function GoTemplate(req: Request): seq<Piece> {
    Five(Prelude, MethodSlot, req.httpMethod, BetweenArgs, UrlSlot, req.url, BeforeReader)
    + ReaderArg(req.body) + [Lit(AfterCall)]
    + HeaderLines(req.headers, LineStart, LineMid, LineEnd) + [Lit(Trailer)]
  }

  /** `generateGo(req)`: no variable substitution, no upper-casing, no escaping. */
  function GenerateGo(req: Request): string {
    Render(GoTemplate(req))
  }

  /** The program is the source's template literal, with one `req.Header.Set` line per header. */
  lemma GoText(req: Request)
    ensures GenerateGo(req)
      == Prelude + req.httpMethod + BetweenArgs + req.url + BeforeReader
         + (if Truthy(req.body) then ReaderOpen + req.body.value + ReaderClose else "nil")
         + AfterCall + HeaderText(req.headers, LineStart, LineMid, LineEnd) + Trailer
  {
    var f := Five(Prelude, MethodSlot, req.httpMethod, BetweenArgs, UrlSlot, req.url, BeforeReader);
    var r := ReaderArg(req.body);
    var h := HeaderLines(req.headers, LineStart, LineMid, LineEnd);
    var rt := if Truthy(req.body) then ReaderOpen + req.body.value + ReaderClose else "nil";
    assert Render(f) == Prelude + req.httpMethod + BetweenArgs + req.url + BeforeReader by {
      FiveRender(Prelude, MethodSlot, req.httpMethod, BetweenArgs, UrlSlot, req.url, BeforeReader);
    }
    assert Render(r) == rt by {
      if Truthy(req.body) {
        ThreeRender(ReaderOpen, BodySlot, req.body.value, ReaderClose);
      } else {
        LitFacts("nil");
      }
    }
    HeaderLinesRender(req.headers, LineStart, LineMid, LineEnd);
    LitFacts(AfterCall);
    LitFacts(Trailer);
    RenderAppend(f, r);
    RenderAppend(f + r, [Lit(AfterCall)]);
    RenderAppend(f + r + [Lit(AfterCall)], h);
    RenderAppend(f + r + [Lit(AfterCall)] + h, [Lit(Trailer)]);
  }

  /**
   * The method and the url are inserted verbatim, then the body if and only if it is
   * non-empty (a blank body counts), then every header in list order, unfiltered.
   */
  lemma GoHoles(req: Request)
    ensures HeaderHolesBetween(Holes(GoTemplate(req)),
      [Hole(MethodSlot, req.httpMethod), Hole(UrlSlot, req.url)]
        + (if Truthy(req.body) then [Hole(BodySlot, req.body.value)] else []),
      req.headers, [])
  {
    var f := Five(Prelude, MethodSlot, req.httpMethod, BetweenArgs, UrlSlot, req.url, BeforeReader);
    var r := ReaderArg(req.body);
    var h := HeaderLines(req.headers, LineStart, LineMid, LineEnd);
    var first := [Hole(MethodSlot, req.httpMethod), Hole(UrlSlot, req.url)]
      + (if Truthy(req.body) then [Hole(BodySlot, req.body.value)] else []);
    assert Holes(f + r) == first by {
      HolesAppend(f, r);
      FiveHoles(Prelude, MethodSlot, req.httpMethod, BetweenArgs, UrlSlot, req.url, BeforeReader);
      if Truthy(req.body) {
        ThreeHoles(ReaderOpen, BodySlot, req.body.value, ReaderClose);
      } else {
        LitFacts("nil");
      }
    }
    assert Holes(f + r + [Lit(AfterCall)]) == first by {
      HolesAppend(f + r, [Lit(AfterCall)]);
      LitFacts(AfterCall);
    }
    assert Holes(GoTemplate(req)) == first + Holes(h) + [] by {
      HolesAppend(f + r + [Lit(AfterCall)] + h, [Lit(Trailer)]);
      HolesAppend(f + r + [Lit(AfterCall)], h);
      LitFacts(Trailer);
    }
    HeaderHolesBetweenIntro(first, req.headers, LineStart, LineMid, LineEnd, []);
  }

  /** Everything but the request's text is fixed by the number of headers and whether a body is sent. */
  lemma GoSkeleton(r1: Request, r2: Request)
    requires |r1.headers| == |r2.headers| && Truthy(r1.body) == Truthy(r2.body)
    ensures Skeleton(GoTemplate(r1)) == Skeleton(GoTemplate(r2))
  {
    var f1 := Five(Prelude, MethodSlot, r1.httpMethod, BetweenArgs, UrlSlot, r1.url, BeforeReader);
    var a1 := ReaderArg(r1.body);
    var h1 := HeaderLines(r1.headers, LineStart, LineMid, LineEnd);
    var f2 := Five(Prelude, MethodSlot, r2.httpMethod, BetweenArgs, UrlSlot, r2.url, BeforeReader);
    var a2 := ReaderArg(r2.body);
    var h2 := HeaderLines(r2.headers, LineStart, LineMid, LineEnd);
    SkeletonAppend(f1 + a1 + [Lit(AfterCall)] + h1, [Lit(Trailer)]);
    SkeletonAppend(f1 + a1 + [Lit(AfterCall)], h1);
    SkeletonAppend(f1 + a1, [Lit(AfterCall)]);
    SkeletonAppend(f1, a1);
    SkeletonAppend(f2 + a2 + [Lit(AfterCall)] + h2, [Lit(Trailer)]);
    SkeletonAppend(f2 + a2 + [Lit(AfterCall)], h2);
    SkeletonAppend(f2 + a2, [Lit(AfterCall)]);
    SkeletonAppend(f2, a2);
    FiveSkeleton(Prelude, MethodSlot, r1.httpMethod, BetweenArgs, UrlSlot, r1.url, BeforeReader);
    FiveSkeleton(Prelude, MethodSlot, r2.httpMethod, BetweenArgs, UrlSlot, r2.url, BeforeReader);
    HeaderLinesSkeleton(r1.headers, r2.headers, LineStart, LineMid, LineEnd);
    if Truthy(r1.body) {
      ThreeSkeleton(ReaderOpen, BodySlot, r1.body.value, ReaderClose);
      ThreeSkeleton(ReaderOpen, BodySlot, r2.body.value, ReaderClose);
    }
  }
}
