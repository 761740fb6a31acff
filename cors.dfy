/** The CORS middleware of the API: an allow-list of development origins, and header decoration
    of every response, with a short-circuit answer for preflight requests. */
module Cors {
  import opened Common
  import opened Text

  /** The origins the middleware accepts, in the order it lists them. */
  const AllowedOrigins: seq<string> := [
    "http://localhost:3000",
    "http://localhost:5173",
    "http://localhost:8080",
    "http://127.0.0.1:3000",
    "http://127.0.0.1:5173",
    "http://127.0.0.1:8080"
  ]

  const AllowMethods: string := "GET, POST, PUT, DELETE, OPTIONS, PATCH"
  const AllowHeaders: string := "Content-Type, Authorization, X-Requested-With, Accept, Origin"

  /** PHP truthiness of an optional header value: absent, `""` and `"0"` are false. */
  predicate PhpTruthy(s: Option<string>) {
    s.Some? && s.value != "" && s.value != "0"
  }

  /** `getAllowedOrigin`: the request's Origin header when it is listed, otherwise the first listed
      origin (the `'*'` fallback applies only to an empty list). */
  function AllowedOrigin(origin: Option<string>): (r: string)
    ensures r in AllowedOrigins && r != "*"
    ensures origin.Some? && origin.value in AllowedOrigins ==> r == origin.value
    ensures !(origin.Some? && origin.value in AllowedOrigins) ==> r == AllowedOrigins[0]
  {
    if PhpTruthy(origin) && origin.value in AllowedOrigins then origin.value
    else if |AllowedOrigins| > 0 then AllowedOrigins[0]
    else "*"
  }

  /** A request as far as the middleware looks at it. */
  datatype Request = Request(verb: string, origin: Option<string>)

  /** A response: status, headers (a later `header` call replaces an earlier value) and body. */
  datatype Response = Response(status: int, headers: map<string, string>, body: string)

  /** `$request->isMethod('OPTIONS')`: the comparison ignores the case of ASCII letters. */
  predicate IsPreflight(req: Request) {
    Lower(req.verb) == "options"
  }

  /** The four headers both branches of `handle` set. */
  function CorsHeaders(req: Request): map<string, string> {
    map["Access-Control-Allow-Origin" := AllowedOrigin(req.origin),
        "Access-Control-Allow-Methods" := AllowMethods,
        "Access-Control-Allow-Headers" := AllowHeaders,
        "Access-Control-Allow-Credentials" := "true"]
  }

  /** `handle`: a preflight is answered with an empty 200 carrying the CORS headers and a one-day
      `Max-Age`, and the next handler is not called; any other request is passed on and the
      response of the next handler, `downstream`, gets the CORS headers. The result says whether
      the next handler was called. */
  function Handle(req: Request, downstream: Response): (r: (Response, bool))
    ensures r.1 <==> !IsPreflight(req)
    ensures IsPreflight(req) ==>
              r.0.status == 200 && r.0.body == ""
              && r.0.headers == CorsHeaders(req)["Access-Control-Max-Age" := "86400"]
    ensures !IsPreflight(req) ==>
              r.0.status == downstream.status && r.0.body == downstream.body
              && r.0.headers == downstream.headers + CorsHeaders(req)
  {
    if IsPreflight(req) then
      (Response(200, CorsHeaders(req)["Access-Control-Max-Age" := "86400"], ""), false)
    else
      (downstream.(headers := downstream.headers + CorsHeaders(req)), true)
  }

  /** Both branches send the same four CORS headers for the same request, and the allowed origin
      never reads `*`, so credentialed requests stay acceptable to a browser. */
  lemma SameCorsHeadersOnBothPaths(req: Request, preflight: Request, downstream: Response)
    requires IsPreflight(preflight) && !IsPreflight(req) && preflight.origin == req.origin
    ensures forall h :: h in CorsHeaders(req) ==>
              h in Handle(req, downstream).0.headers && h in Handle(preflight, downstream).0.headers
              && Handle(req, downstream).0.headers[h] == Handle(preflight, downstream).0.headers[h]
    ensures Handle(req, downstream).0.headers["Access-Control-Allow-Origin"] != "*"
  {
    var a := Handle(req, downstream).0.headers;
    var b := Handle(preflight, downstream).0.headers;
    assert CorsHeaders(req) == CorsHeaders(preflight);
    forall h | h in CorsHeaders(req)
      ensures h in a && h in b && a[h] == b[h]
    {
      assert h != "Access-Control-Max-Age";
    }
  }
}
