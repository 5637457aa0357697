/**
 * The CORS middleware: which origin a response may name in
 * Access-Control-Allow-Origin (the CORS protocol, section 3.2 of the WHATWG
 * Fetch Standard), the preflight answer, and the headers added to every
 * other response. The CORS_ALLOWED_ORIGINS environment variable is an input.
 */
module Cors {
  import opened Wrappers
  import opened PhpStrings
  import opened Http

  const AllowMethods: string := "GET, POST, PUT, DELETE, OPTIONS"
  const DefaultAllowHeaders: string := "Content-Type, Authorization, X-Requested-With"
  const MaxAge: string := "86400"

  /** `getenv('CORS_ALLOWED_ORIGINS') ?: ''`: unset or falsy gives "". */
  function EnvOrEmpty(env: Option<string>): string {
    if env.Some? && Truthy(env.value) then env.value else ""
  }

  /** array_map('trim', xs). */
  function TrimAll(xs: seq<string>): (r: seq<string>)
    ensures |r| == |xs| && forall i :: 0 <= i < |xs| ==> r[i] == Trim(xs[i])
  {
    if xs == [] then [] else [Trim(xs[0])] + TrimAll(xs[1..])
  }

  /** The allowed list: the comma-separated entries, trimmed, without the empty (and "0") ones. */
  function ConfiguredOrigins(env: Option<string>): (r: seq<string>)
    ensures forall s :: s in r <==> s in TrimAll(Explode(',', EnvOrEmpty(env))) && Truthy(s)
    ensures forall s :: s in r ==> ',' !in s
  {
    var pieces := Explode(',', EnvOrEmpty(env));
    forall i | 0 <= i < |pieces| ensures ',' !in Trim(pieces[i]) {
      TrimIsInfix(pieces[i]);
    }
    ArrayFilter(TrimAll(pieces))
  }

  /** Trim only removes characters, so it keeps a character out that was out. */
  lemma TrimIsInfix(s: string)
    ensures forall c :: c in Trim(s) ==> c in s
  {
    TrimLeftInfix(s);
    TrimRightInfix(TrimLeft(s));
  }

  lemma {:induction false} TrimLeftInfix(s: string)
    ensures forall c :: c in TrimLeft(s) ==> c in s
  {
    if s != [] && IsTrimmable(s[0]) {
      TrimLeftInfix(s[1..]);
    }
  }

  lemma {:induction false} TrimRightInfix(s: string)
    ensures forall c :: c in TrimRight(s) ==> c in s
  {
    if s != [] && IsTrimmable(s[|s| - 1]) {
      TrimRightInfix(s[..|s| - 1]);
    }
  }

  /** A list written out with commas is read back as the same list. */
  lemma {:induction false} ConfiguredOriginsOfList(origins: seq<string>)
    requires |origins| >= 1
    requires forall i :: 0 <= i < |origins| ==> Truthy(origins[i]) && ',' !in origins[i] && Trim(origins[i]) == origins[i]
    ensures ConfiguredOrigins(Some(Join(",", origins))) == origins
  {
    var env := Join(",", origins);
    assert env == Join([','], origins);
    ExplodeJoin(',', origins);
    assert Truthy(env) by {
      if |origins| == 1 {
        assert env == origins[0];
      } else {
        assert env == origins[0] + "," + Join(",", origins[1..]);
      }
    }
    assert TrimAll(origins) == origins;
  }

  /**
   * resolveAllowedOrigin: nothing without a truthy Origin header or with an
   * empty allowed list; "*" when the list holds "*"; otherwise the request's
   * own origin exactly when the list holds it.
   */
  function ResolveAllowedOrigin(req: Request, env: Option<string>): (r: Option<string>)
    ensures !Given(Header(req, "origin")) ==> r.None?
    ensures ConfiguredOrigins(env) == [] ==> r.None?
    ensures Given(Header(req, "origin")) && "*" in ConfiguredOrigins(env) ==> r == Some("*")
    ensures Given(Header(req, "origin")) && "*" !in ConfiguredOrigins(env) ==>
      (r.Some? <==> req.headers["origin"] in ConfiguredOrigins(env)) && (r.Some? ==> r.value == req.headers["origin"])
    ensures r.None? || r == Some("*") || r == Header(req, "origin")
    ensures r.Some? ==> Truthy(r.value) && r.value in ConfiguredOrigins(env)
  {
    var origin := Header(req, "origin");
    if !Given(origin) then None
    else
      var allowed := ConfiguredOrigins(env);
      if allowed == [] then None
      else if "*" in allowed then Some("*")
      else if origin.value in allowed then origin
      else None
  }

  /** With "*" configured every request that names an origin is answered "*". */
  lemma WildcardAnswersEveryOrigin(req: Request, entries: seq<string>)
    requires Given(Header(req, "origin"))
    requires |entries| >= 1 && "*" in entries
    requires forall i :: 0 <= i < |entries| ==> Truthy(entries[i]) && ',' !in entries[i] && Trim(entries[i]) == entries[i]
    ensures ResolveAllowedOrigin(req, Some(Join(",", entries))) == Some("*")
  {
    ConfiguredOriginsOfList(entries);
  }

  /** The headers of the preflight answer. */
  function PreflightHeaders(req: Request, env: Option<string>): (h: map<string, string>)
    ensures "Access-Control-Allow-Methods" in h && h["Access-Control-Allow-Methods"] == AllowMethods
    ensures "Access-Control-Max-Age" in h && h["Access-Control-Max-Age"] == "86400"
    ensures "Access-Control-Allow-Headers" in h && h["Access-Control-Allow-Headers"] ==
      (if Given(Header(req, "access-control-request-headers")) then req.headers["access-control-request-headers"]
       else DefaultAllowHeaders)
    ensures ("Access-Control-Allow-Origin" in h <==> ResolveAllowedOrigin(req, env).Some?)
    ensures ("Vary" in h <==> ResolveAllowedOrigin(req, env).Some?)
    ensures ResolveAllowedOrigin(req, env).Some? ==>
      h["Access-Control-Allow-Origin"] == ResolveAllowedOrigin(req, env).value && h["Vary"] == "Origin"
    ensures h.Keys <= {"Access-Control-Allow-Methods", "Access-Control-Max-Age", "Access-Control-Allow-Headers",
                       "Access-Control-Allow-Origin", "Vary"}
  {
    var base := map["Access-Control-Allow-Methods" := AllowMethods, "Access-Control-Max-Age" := MaxAge];
    var requested := Header(req, "access-control-request-headers");
    var withHeaders := base["Access-Control-Allow-Headers" := if Given(requested) then requested.value else DefaultAllowHeaders];
    match ResolveAllowedOrigin(req, env)
    case None => withHeaders
    case Some(origin) => withHeaders["Access-Control-Allow-Origin" := origin]["Vary" := "Origin"]
  }

  /** The headers added to a response that is not a preflight. */
  function ResponseHeaders(allowedOrigin: Option<string>): (h: map<string, string>)
    ensures allowedOrigin.None? ==> h == map[]
    ensures allowedOrigin.Some? ==>
      && h.Keys == {"Access-Control-Allow-Origin", "Access-Control-Allow-Methods", "Access-Control-Allow-Headers", "Vary"}
      && h["Access-Control-Allow-Origin"] == allowedOrigin.value && h["Vary"] == "Origin"
      && h["Access-Control-Allow-Methods"] == AllowMethods && h["Access-Control-Allow-Headers"] == DefaultAllowHeaders
  {
    match allowedOrigin
    case None => map[]
    case Some(origin) =>
      var h := map["Access-Control-Allow-Origin" := origin, "Access-Control-Allow-Methods" := AllowMethods,
                   "Access-Control-Allow-Headers" := DefaultAllowHeaders, "Vary" := "Origin"];
      assert "Vary" in h;
      h
  }

  /** A response object whose headers the middleware adds to in place. */
  class HttpResponse {
    var status: int
    var body: string
    var headers: map<string, string>

    constructor (body: string, status: int, headers: map<string, string>)
      ensures this.body == body && this.status == status && this.headers == headers
    {
      this.body, this.status, this.headers := body, status, headers;
    }

    /** withHeaders: the given headers are set, replacing any of the same name. */
    method WithHeaders(extra: map<string, string>)
      modifies this
      ensures headers == old(headers) + extra
      ensures status == old(status) && body == old(body)
    {
      headers := headers + extra;
    }
  }

  /** The preflight answer, its headers set one after another. */
  method Preflight(req: Request, env: Option<string>) returns (response: HttpResponse)
    ensures fresh(response)
    ensures response.status == 200 && response.body == "" && response.headers == PreflightHeaders(req, env)
  {
    var allowedOrigin := ResolveAllowedOrigin(req, env);
    var headers := map["Access-Control-Allow-Methods" := AllowMethods, "Access-Control-Max-Age" := MaxAge];
    var reqHeaders := Header(req, "access-control-request-headers");
    if Given(reqHeaders) {
      headers := headers["Access-Control-Allow-Headers" := reqHeaders.value];
    } else {
      headers := headers["Access-Control-Allow-Headers" := DefaultAllowHeaders];
    }
    if allowedOrigin.Some? {
      headers := headers["Access-Control-Allow-Origin" := allowedOrigin.value];
      headers := headers["Vary" := "Origin"];
    }
    response := new HttpResponse("", 200, headers);
  }

  /** The CORS headers added to the response of the next handler, when an origin is allowed. */
  method Decorate(req: Request, env: Option<string>, response: HttpResponse)
    modifies response
    ensures response.status == old(response.status) && response.body == old(response.body)
    ensures ResolveAllowedOrigin(req, env).None? ==> response.headers == old(response.headers)
    ensures ResolveAllowedOrigin(req, env).Some? ==>
      response.headers == old(response.headers) + ResponseHeaders(ResolveAllowedOrigin(req, env))
  {
    var allowedOrigin := ResolveAllowedOrigin(req, env);
    if allowedOrigin.Some? {
      response.WithHeaders(ResponseHeaders(allowedOrigin));
    }
  }

  /** What the next handler answers: body, status and headers. */
  datatype Reply = Reply(body: string, status: int, headers: map<string, string>)

  /**
   * process. `next` is the rest of the pipeline. A preflight never calls it
   * and answers 200 with an empty body; every other request gets the next
   * handler's answer back with the CORS headers added when an origin is
   * allowed.
   */
  method Process(req: Request, env: Option<string>, next: Request -> Reply) returns (response: HttpResponse)
    ensures fresh(response)
    ensures req.verb == "OPTIONS" ==>
      response.status == 200 && response.body == "" && response.headers == PreflightHeaders(req, env)
    ensures req.verb != "OPTIONS" ==>
      response.status == next(req).status && response.body == next(req).body
    ensures req.verb != "OPTIONS" && ResolveAllowedOrigin(req, env).None? ==> response.headers == next(req).headers
    ensures req.verb != "OPTIONS" && ResolveAllowedOrigin(req, env).Some? ==>
      response.headers == next(req).headers + ResponseHeaders(ResolveAllowedOrigin(req, env))
  {
    if req.verb == "OPTIONS" {
      response := Preflight(req, env);
    } else {
      var reply := next(req);
      response := new HttpResponse(reply.body, reply.status, reply.headers);
      Decorate(req, env, response);
    }
  }
}
