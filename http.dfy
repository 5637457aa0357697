/** Requests, sessions and responses as the controllers see them. */
module Http {
  import opened Wrappers
  import opened Json

  /**
   * A request: its HTTP method, its headers (names lower-cased), its query and its
   * form fields. Form fields posted as arrays (`scope[]=...`) are kept apart.
   */
  datatype Request = Request(
    verb: string,
    headers: map<string, string>,
    query: map<string, string>,
    post: map<string, string>,
    postArrays: map<string, seq<string>>)

  function Header(r: Request, name: string): Option<string> {
    if name in r.headers then Some(r.headers[name]) else None
  }

  function Get(r: Request, name: string): Option<string> {
    if name in r.query then Some(r.query[name]) else None
  }

  function Post(r: Request, name: string): Option<string> {
    if name in r.post then Some(r.post[name]) else None
  }

  /** PHP truthiness of an optional string: null, "" and "0" are falsy. */
  predicate Given(s: Option<string>) {
    s.Some? && PhpStrings.Truthy(s.value)
  }

  /** `$x ?? ''` / a null passed where an internal function expects a string. */
  function OrEmpty(s: Option<string>): string {
    if s.Some? then s.value else ""
  }

  /** The session keys the application uses. */
  datatype Session = Session(
    userId: Option<nat>,
    username: Option<string>,
    oauthState: Option<string>,
    oauthProviderId: Option<nat>)

  /**
   * A response: a JSON body with a status, a redirect, the error view with its
   * message, or an uncaught PHP TypeError (HTTP 500).
   */
  datatype Response =
    | JsonResponse(status: int, body: map<string, Value>)
    | Redirect(location: string)
    | ErrorView(message: string)
    | Fatal

  function JsonError(status: int, error: string): Response {
    JsonResponse(status, map["error" := Str(error)])
  }
}
