/** `generateJava`: a `HttpURLConnection` program as one template literal. */
module JavaCodegen {
  import opened Wrappers
  import opened Types
  import opened Templates
  import Strings

  const Prelude := "import java.io.*;\nimport java.net.*;\n\npublic class Main {\n  public static void main(String[] args) throws Exception {\n    URL url = new URL(\""
  const OpenConnection := "\");\n    HttpURLConnection con = (HttpURLConnection) url.openConnection();\n    con.setRequestMethod(\""
  const AfterMethod := "\");\n"
  const BodyOpen := "    con.setDoOutput(true);\n    try(OutputStream os = con.getOutputStream()) {\n      byte[] input = \""
  const BodyClose := "\".getBytes(\"utf-8\");\n      os.write(input, 0, input.length);\n    }"
  const Trailer := "\n\n    BufferedReader in = new BufferedReader(new InputStreamReader(con.getInputStream()));\n    String inputLine;\n    StringBuffer content = new StringBuffer();\n    while ((inputLine = in.readLine()) != null) {\n      content.append(inputLine);\n    }\n    in.close();\n    con.disconnect();\n    System.out.println(content.toString());\n  }\n}"

  const LineStart := "    con.setRequestProperty(\""
  const LineMid := "\", \""
  const LineEnd := "\");"

  /** The output-stream block, present only for a non-empty body. */
  function BodyBlock(body: Option<string>): seq<Piece> {
    if Truthy(body) then Three(BodyOpen, BodySlot, body.value, BodyClose) else []
  }

  function JavaTemplate(req: Request): seq<Piece> {
    Five(Prelude, UrlSlot, req.url, OpenConnection, MethodSlot, req.httpMethod, AfterMethod)
    + HeaderLines(req.headers, LineStart, LineMid, LineEnd)
    + [Lit("\n")] + BodyBlock(req.body) + [Lit(Trailer)]
  }

  /** `generateJava(req)`: no variable substitution, no escaping. */
  function GenerateJava(req: Request): string {
    Render(JavaTemplate(req))
  }

  /** The program is the source's template literal, with one property line per header joined by newlines. */
  lemma JavaText(req: Request)
    ensures GenerateJava(req)
      == Prelude + req.url + OpenConnection + req.httpMethod + AfterMethod
         + HeaderText(req.headers, LineStart, LineMid, LineEnd)
         + "\n" + (if Truthy(req.body) then BodyOpen + req.body.value + BodyClose else "") + Trailer
  {
    var f := Five(Prelude, UrlSlot, req.url, OpenConnection, MethodSlot, req.httpMethod, AfterMethod);
    var h := HeaderLines(req.headers, LineStart, LineMid, LineEnd);
    var b := BodyBlock(req.body);
    var bt := if Truthy(req.body) then BodyOpen + req.body.value + BodyClose else "";
    assert Render(f) == Prelude + req.url + OpenConnection + req.httpMethod + AfterMethod by {
      FiveRender(Prelude, UrlSlot, req.url, OpenConnection, MethodSlot, req.httpMethod, AfterMethod);
    }
    HeaderLinesRender(req.headers, LineStart, LineMid, LineEnd);
    assert Render(b) == bt by {
      if Truthy(req.body) {
        ThreeRender(BodyOpen, BodySlot, req.body.value, BodyClose);
      }
    }
    LitFacts("\n");
    LitFacts(Trailer);
    RenderAppend(f, h);
    RenderAppend(f + h, [Lit("\n")]);
    RenderAppend(f + h + [Lit("\n")], b);
    RenderAppend(f + h + [Lit("\n")] + b, [Lit(Trailer)]);
  }

  /**
   * The request's text reaches the program exactly here: the url, then the method, then
   * every header's key and value in list order (empty keys included), then the body
   * if and only if it is non-empty, whatever the method.
   */
  lemma JavaHoles(req: Request)
    ensures HeaderHolesBetween(Holes(JavaTemplate(req)),
      [Hole(UrlSlot, req.url), Hole(MethodSlot, req.httpMethod)], req.headers,
      if Truthy(req.body) then [Hole(BodySlot, req.body.value)] else [])
  {
    var f := Five(Prelude, UrlSlot, req.url, OpenConnection, MethodSlot, req.httpMethod, AfterMethod);
    var h := HeaderLines(req.headers, LineStart, LineMid, LineEnd);
    var b := BodyBlock(req.body);
    assert Holes(JavaTemplate(req)) == Holes(f) + Holes(h) + Holes(b) by {
      LitFacts("\n");
      LitFacts(Trailer);
      HolesAppend(f + h + [Lit("\n")] + b, [Lit(Trailer)]);
      HolesAppend(f + h + [Lit("\n")], b);
      HolesAppend(f + h, [Lit("\n")]);
      HolesAppend(f, h);
    }
    assert Holes(f) == [Hole(UrlSlot, req.url), Hole(MethodSlot, req.httpMethod)] by {
      FiveHoles(Prelude, UrlSlot, req.url, OpenConnection, MethodSlot, req.httpMethod, AfterMethod);
    }
    if Truthy(req.body) {
      ThreeHoles(BodyOpen, BodySlot, req.body.value, BodyClose);
    }
    HeaderHolesBetweenIntro(Holes(f), req.headers, LineStart, LineMid, LineEnd, Holes(b));
  }

  /** Everything but the request's text is fixed by the number of headers and whether a body is sent. */
  lemma JavaSkeleton(r1: Request, r2: Request)
    requires |r1.headers| == |r2.headers| && Truthy(r1.body) == Truthy(r2.body)
    ensures Skeleton(JavaTemplate(r1)) == Skeleton(JavaTemplate(r2))
  {
    var f1 := Five(Prelude, UrlSlot, r1.url, OpenConnection, MethodSlot, r1.httpMethod, AfterMethod);
    var h1 := HeaderLines(r1.headers, LineStart, LineMid, LineEnd);
    var b1 := BodyBlock(r1.body);
    var f2 := Five(Prelude, UrlSlot, r2.url, OpenConnection, MethodSlot, r2.httpMethod, AfterMethod);
    var h2 := HeaderLines(r2.headers, LineStart, LineMid, LineEnd);
    var b2 := BodyBlock(r2.body);
    SkeletonAppend(f1 + h1 + [Lit("\n")] + b1, [Lit(Trailer)]);
    SkeletonAppend(f1 + h1 + [Lit("\n")], b1);
    SkeletonAppend(f1 + h1, [Lit("\n")]);
    SkeletonAppend(f1, h1);
    SkeletonAppend(f2 + h2 + [Lit("\n")] + b2, [Lit(Trailer)]);
    SkeletonAppend(f2 + h2 + [Lit("\n")], b2);
    SkeletonAppend(f2 + h2, [Lit("\n")]);
    SkeletonAppend(f2, h2);
    FiveSkeleton(Prelude, UrlSlot, r1.url, OpenConnection, MethodSlot, r1.httpMethod, AfterMethod);
    FiveSkeleton(Prelude, UrlSlot, r2.url, OpenConnection, MethodSlot, r2.httpMethod, AfterMethod);
    HeaderLinesSkeleton(r1.headers, r2.headers, LineStart, LineMid, LineEnd);
    if Truthy(r1.body) {
      ThreeSkeleton(BodyOpen, BodySlot, r1.body.value, BodyClose);
      ThreeSkeleton(BodyOpen, BodySlot, r2.body.value, BodyClose);
    }
  }
}
