/** The request listener of httpd.js: route on the parsed path name, then hand the
    request to `servePage`, `informationHandler` or `staticFileHandler`. */
module Server {
  import opened Utf16
  import opened Responses
  import opened Information
  import opened StaticFiles

  const RootPath: JsString := Ascii("/")

  datatype Route = IndexPage | InformationPage | StaticFile

  /** `/` is the main page, `/information` the information page, everything else a
      static file; the comparison is exact, so `/information/` and `/Information` are
      static files. */
  function RouteOf(pathname: JsString): (route: Route)
    ensures route == IndexPage <==> pathname == RootPath
    ensures route == InformationPage <==> pathname == InformationPath
  {
    if pathname == RootPath then IndexPage
    else if pathname == InformationPath then InformationPage
    else StaticFile
  }

  /** `servePage(res, 'index.html')`: the file's text as HTML, or 500 when it cannot
      be read. */
  function PageResponse(content: Option<JsString>): Response {
    match content
    case None => InternalServerError
    case Some(page) => Response(200, TextHtml, Text(page))
  }

  /** A request as the listener sees it: the method, the raw URL, and the path name and
      query `url.parse(req.url, true)` gives for it. */
  datatype Request = Request(verb: JsString, url: JsString, pathname: JsString, query: Query)

  /** What the file system holds for one request: the result of reading
      `public/index.html`, the result of reading `templates/information.html`, and
      the answers about the static path. */
  datatype Environment = Environment(
    indexPage: Option<JsString>,
    template: Option<JsString>,
    staticView: FileSystemView)

  /** The response to a request. */
  function Respond(request: Request, env: Environment, stringify: Query -> JsString): Response {
    match RouteOf(request.pathname)
    case IndexPage => PageResponse(env.indexPage)
    case InformationPage => InformationResponse(request.verb, request.query, env.template, stringify)
    case StaticFile => StaticResponse(request.url, env.staticView)
  }

  /** The listener. */
  method HandleRequest(request: Request, env: Environment, stringify: Query -> JsString)
    returns (response: Response)
    ensures response == Respond(request, env, stringify)
  {
    if request.pathname == RootPath || request.pathname == InformationPath {
      if request.pathname == RootPath {
        response := PageResponse(env.indexPage);
      } else {
        response := InformationHandler(request.verb, request.query, env.template, stringify);
      }
    } else {
      response := StaticFileHandler(request.url, env.staticView);
    }
  }

  lemma {:induction false} RootIsNotInformation()
    ensures RootPath != InformationPath
  {
    assert |RootPath| == 1 && |InformationPath| == 12;
  }

  /** Across all routes: 400 and 405 come only from the information page, 404 only from
      a static path that does not exist, and every response carries one of the five
      statuses the server uses. */
  lemma {:induction false} ResponseStatuses(request: Request, env: Environment, stringify: Query -> JsString)
    ensures Respond(request, env, stringify).status in {200, 400, 404, 405, 500}
    ensures Respond(request, env, stringify).status in {400, 405} ==> request.pathname == InformationPath
    ensures Respond(request, env, stringify).status == 404 <==>
      request.pathname != RootPath && request.pathname != InformationPath && env.staticView.stat == Missing
    ensures Respond(request, env, stringify).status == 405 <==>
      request.pathname == InformationPath && request.verb != GET
  {
    RootIsNotInformation();
    StaticOutcomes(request.url, env.staticView);
    InformationVerdicts(request.verb, request.query, env.template, stringify);
  }

  /** The static handler looks up the raw URL, not the parsed path name: a request
      for `/style.css?v=1` asks the file system for `public/style.css?v=1`. */
  lemma {:induction false} StaticLookupKeepsQueryString(env: Environment, stringify: Query -> JsString)
    requires env.staticView.stat == RegularFile
    ensures var request := Request(GET, Ascii("/style.css?v=1"), Ascii("/style.css"), map[Ascii("v") := Ascii("1")]);
      Respond(request, env, stringify).body == FileStream(PublicFile(Ascii("/style.css?v=1")))
  {
    assert Ascii("/style.css")[1] != InformationPath[1];
    assert |Ascii("/style.css")| != |RootPath|;
  }
}
