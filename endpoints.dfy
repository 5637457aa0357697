/**
 * The HTTP endpoints of the authorization server as functions of the tables
 * and the request: client authentication (Basic per section 2 of RFC 7617,
 * or form fields), the authorization page guards, the authorization response
 * (section 4.1.2 of RFC 6749), the token endpoint (sections 5.1 and 5.2 of
 * RFC 6749), introspection (section 2.2 of RFC 7662), revocation (section 2.2
 * of RFC 7009) and userinfo with a Bearer header (section 2.1 of RFC 6750).
 */
module Endpoints {
  import opened Wrappers
  import opened PhpStrings
  import opened Json
  import opened Http
  import opened UserModel
  import opened ClientModel
  import opened TokenModel
  import opened GrantEngine
  import GrantProperties

  /** base64_decode, supplied: None where PHP returns false. */
  type Decoder = string -> Option<string>

  // ------------------------------------------------------------------ client authentication

  /** A truthy Authorization header that starts with "Basic ". */
  predicate UsesBasic(req: Request) {
    Given(Header(req, "authorization")) && StartsWith(Header(req, "authorization").value, "Basic ")
  }

  /** The text after "Basic ". */
  function BasicPayload(req: Request): string
    requires UsesBasic(req)
  {
    Header(req, "authorization").value[6..]
  }

  /**
   * The client id and secret a request presents: split at the first ':' of
   * the decoded Basic credentials, nothing when they do not decode, and the
   * form fields when there is no Basic header.
   */
  function PresentedCredentials(req: Request, decode: Decoder): (r: (Option<string>, Option<string>))
    ensures UsesBasic(req) && decode(BasicPayload(req)).None? ==> r == (None, None)
    ensures UsesBasic(req) && decode(BasicPayload(req)).Some? ==>
      var d := decode(BasicPayload(req)).value;
      && r.0.Some? && ':' !in r.0.value
      && (r.1.Some? ==> d == r.0.value + ":" + r.1.value)
      && (r.1.None? ==> d == r.0.value)
    ensures !UsesBasic(req) ==> r == (Post(req, "client_id"), Post(req, "client_secret"))
  {
    if UsesBasic(req) then
      match decode(BasicPayload(req))
      case None => (None, None)
      case Some(d) =>
        var parts := SplitOnce(':', d);
        (Some(parts.0), parts.1)
    else (Post(req, "client_id"), Post(req, "client_secret"))
  }

  /**
   * authenticateClient: the enabled client whose secret matches what the
   * request presents; nothing, the same nothing, when the id or the secret
   * is missing or falsy, the client is unknown or disabled, or the secret is
   * wrong.
   */
  function AuthenticateClient(db: Db, req: Request, decode: Decoder): (r: Option<Client>)
    ensures var (id, secret) := PresentedCredentials(req, decode);
      && (r.Some? <==> Given(id) && Given(secret) && ClientAccepted(db, id.value, secret.value))
      && (r.Some? ==> r.value == db.clients[id.value] && r.value.status == 1 &&
                      ValidateSecret(r.value, secret.value))
  {
    var (id, secret) := PresentedCredentials(req, decode);
    if !Given(id) || !Given(secret) then None
    else match EnabledClient(db, id.value)
      case None => None
      case Some(c) => if ValidateSecret(c, secret.value) then Some(c) else None
  }

  /** With a Basic header the form fields play no part, even when the header does not decode. */
  lemma BasicHeaderOverridesForm(db: Db, req: Request, decode: Decoder, post: map<string, string>)
    requires UsesBasic(req)
    ensures AuthenticateClient(db, req.(post := post), decode) == AuthenticateClient(db, req, decode)
  {
    assert Header(req.(post := post), "authorization") == Header(req, "authorization");
  }

  /** A Basic header carrying "id:secret" authenticates as id even when the secret contains ':'. */
  lemma {:induction false} BasicSplitsAtFirstColon(db: Db, req: Request, decode: Decoder, id: string, secret: string)
    requires UsesBasic(req)
    requires ':' !in id && PhpStrings.Truthy(id) && PhpStrings.Truthy(secret)
    requires decode(BasicPayload(req)) == Some(id + ":" + secret)
    ensures AuthenticateClient(db, req, decode).Some? <==> ClientAccepted(db, id, secret)
  {
    SplitAtFirst(':', id, secret);
    assert id + ":" + secret == id + [':'] + secret;
  }

  // ------------------------------------------------------------------ authorization page

  /** What the authorization page shows. */
  datatype AuthorizePage =
    | Rejected(message: string)
    | LoginFirst(savedQuery: map<string, string>)
    | Consent(client: Client, user: User, scopes: seq<string>, redirectUri: string, state: string)

  const InvalidRequestMessage: string := "无效的请求参数"
  const InvalidClientMessage: string := "无效的客户端"
  const UserStateMessage: string := "用户状态异常"

  /** `session('user_id')` is truthy: present and not 0. */
  predicate LoggedIn(s: Session) {
    s.userId.Some? && s.userId.value != 0
  }

  /** `$request->get(name, default)`. */
  function GetOr(req: Request, name: string, default: string): string {
    if name in req.query then req.query[name] else default
  }

  /** `array_filter(explode(' ', $scope))`: the non-empty, non-"0" space-separated names. */
  function RequestedScopes(scope: string): (r: seq<string>)
    ensures forall s :: s in r <==> s in Explode(' ', scope) && PhpStrings.Truthy(s)
    ensures forall s :: s in r ==> ' ' !in s
  {
    ArrayFilter(Explode(' ', scope))
  }

  /**
   * The scopes of "a b" are the scopes of "a" followed by those of "b": the
   * truthy pieces are kept in the order they were written.
   */
  lemma RequestedScopesOfConcat(a: string, b: string)
    ensures RequestedScopes(a + " " + b) == RequestedScopes(a) + RequestedScopes(b)
  {
    ExplodeAroundSeparator(' ', a, b);
    ArrayFilterAppend(Explode(' ', a), Explode(' ', b));
  }

  /** A scope list joined by spaces is requested back as the same list. */
  lemma {:induction false} RequestedScopesOfJoin(xs: seq<string>)
    requires forall i :: 0 <= i < |xs| ==> PhpStrings.Truthy(xs[i]) && ' ' !in xs[i]
    ensures RequestedScopes(Join(" ", xs)) == xs
  {
    if xs == [] {
      assert Explode(' ', Join(" ", xs)) == [""];
    } else {
      ExplodeJoin(' ', xs);
      assert Join(" ", xs) == Join([' '], xs);
    }
  }

  /** `OAuthScope::whereIn('scope', requested)->get()`: the catalogue rows requested, in table order. */
  function OfferedScopes(catalog: seq<string>, requested: seq<string>): (r: seq<string>)
    ensures |r| <= |catalog|
    ensures forall s :: s in r <==> s in catalog && s in requested
  {
    if catalog == [] then []
    else if catalog[0] in requested then [catalog[0]] + OfferedScopes(catalog[1..], requested)
    else OfferedScopes(catalog[1..], requested)
  }

  /** The parameter and client guards of the authorization page passed. */
  predicate AuthorizeRequestValid(db: Db, req: Request) {
    && Given(Get(req, "client_id"))
    && Given(Get(req, "redirect_uri"))
    && GetOr(req, "response_type", "code") == "code"
    && EnabledClient(db, req.query["client_id"]).Some?
    && ValidateRedirectUri(EnabledClient(db, req.query["client_id"]).value, req.query["redirect_uri"])
  }

  /**
   * authorize (its guards and the data it hands to the consent view). The
   * catalogue is the scope table's names in row order.
   */
  function Authorize(db: Db, session: Session, req: Request, catalog: seq<string>): (r: AuthorizePage)
    ensures (!Given(Get(req, "client_id")) || !Given(Get(req, "redirect_uri")) ||
             GetOr(req, "response_type", "code") != "code") ==> r == Rejected(InvalidRequestMessage)
    ensures (Given(Get(req, "client_id")) && Given(Get(req, "redirect_uri")) &&
             GetOr(req, "response_type", "code") == "code" && !AuthorizeRequestValid(db, req))
            ==> r == Rejected(InvalidClientMessage)
    ensures r.LoginFirst? <==> AuthorizeRequestValid(db, req) && !LoggedIn(session)
    ensures r.LoginFirst? ==> r.savedQuery == req.query
    ensures AuthorizeRequestValid(db, req) && LoggedIn(session) &&
            (Find(db.users, session.userId.value).None? || Find(db.users, session.userId.value).value.status != 1)
            ==> r == Rejected(UserStateMessage)
    ensures r.Consent? <==>
      && AuthorizeRequestValid(db, req) && LoggedIn(session)
      && Find(db.users, session.userId.value).Some?
      && Find(db.users, session.userId.value).value.status == 1
    ensures r.Consent? ==>
      && r.client == db.clients[req.query["client_id"]]
      && r.client.status == 1 && r.redirectUri == r.client.redirectUri
      && r.user == db.users.rows[session.userId.value]
      && r.state == GetOr(req, "state", "")
      && forall s :: s in r.scopes <==> s in catalog && s in RequestedScopes(GetOr(req, "scope", ""))
  {
    var clientId, redirectUri := Get(req, "client_id"), Get(req, "redirect_uri");
    if !Given(clientId) || !Given(redirectUri) || GetOr(req, "response_type", "code") != "code" then
      Rejected(InvalidRequestMessage)
    else match EnabledClient(db, clientId.value)
      case None => Rejected(InvalidClientMessage)
      case Some(client) =>
        if !ValidateRedirectUri(client, redirectUri.value) then Rejected(InvalidClientMessage)
        else if !LoggedIn(session) then LoginFirst(req.query)
        else match Find(db.users, session.userId.value)
          case None => Rejected(UserStateMessage)
          case Some(user) =>
            if user.status != 1 then Rejected(UserStateMessage)
            else
              var scopes := OfferedScopes(catalog, RequestedScopes(GetOr(req, "scope", "")));
              Consent(client, user, scopes, redirectUri.value, GetOr(req, "state", ""))
  }

  // ------------------------------------------------------------------ authorization response

  function PostOr(req: Request, name: string, default: string): string {
    if name in req.post then req.post[name] else default
  }

  /** The "&state=..." suffix, present only for a truthy state. */
  function StateSuffix(state: string): (r: string)
    ensures r == "" <==> !PhpStrings.Truthy(state)
    ensures r != "" ==> |r| >= 7 && r[..7] == "&state=" && r[7..] == UrlEncode(state)
  {
    if PhpStrings.Truthy(state) then "&state=" + UrlEncode(state) else ""
  }

  /**
   * `$request->post('scope', [])` as the array parameter of
   * generateAuthorizationCode: a posted list, the empty list when absent,
   * nothing when a plain string was posted (a TypeError).
   */
  function SubmittedScope(req: Request): Option<seq<string>> {
    if "scope" in req.postArrays then Some(req.postArrays["scope"])
    else if "scope" in req.post then None
    else Some([])
  }

  predicate Approved(req: Request) {
    Post(req, "approved") == Some("yes")
  }

  /** The approval path has every value generateAuthorizationCode's typed parameters need. */
  predicate SubmissionComplete(req: Request) {
    Post(req, "client_id").Some? && Post(req, "redirect_uri").Some? && SubmittedScope(req).Some?
  }

  /**
   * authorizeSubmit: without a session user, 401; on anything but approval,
   * a redirect carrying access_denied and no new code; on approval, a new
   * code for the submitted client, redirect URI and scope (neither is checked
   * again here) and a redirect carrying it.
   */
  function AuthorizeSubmit(db: Db, session: Session, req: Request, now: int, random: seq<byte>): (r: Step<Response>)
    requires |random| == 32 && Bin2Hex(random) !in db.codes
    ensures !LoggedIn(session) ==> r == Step(db, JsonError(401, "unauthorized"))
    ensures LoggedIn(session) && !Approved(req) ==>
      r == Step(db, Redirect(OrEmpty(Post(req, "redirect_uri")) + "?error=access_denied" +
                             StateSuffix(PostOr(req, "state", ""))))
    ensures LoggedIn(session) && Approved(req) && !SubmissionComplete(req) ==> r == Step(db, Fatal)
    ensures LoggedIn(session) && Approved(req) && SubmissionComplete(req) ==>
      var uri := req.post["redirect_uri"];
      var issued := GenerateAuthorizationCode(db, req.post["client_id"], session.userId.value, uri,
                                              SubmittedScope(req).value, now, random);
      && r.db == issued.db
      && r.out == Redirect(uri + "?code=" + Bin2Hex(random) + StateSuffix(PostOr(req, "state", "")))
    ensures r.db.codes.Keys <= db.codes.Keys + {Bin2Hex(random)}
  {
    if !LoggedIn(session) then Step(db, JsonError(401, "unauthorized"))
    else
      var redirectUri := Post(req, "redirect_uri");
      var state := PostOr(req, "state", "");
      if !Approved(req) then
        Step(db, Redirect(OrEmpty(redirectUri) + "?error=access_denied" + StateSuffix(state)))
      else if !SubmissionComplete(req) then Step(db, Fatal)
      else
        var issued := GenerateAuthorizationCode(db, req.post["client_id"], session.userId.value, redirectUri.value,
                                                SubmittedScope(req).value, now, random);
        Step(issued.db, Redirect(redirectUri.value + "?code=" + issued.out + StateSuffix(state)))
  }

  /** Approval issues a code even for a client id that no client has: nothing is re-validated. */
  lemma SubmitDoesNotCheckClient(db: Db, session: Session, req: Request, now: int, random: seq<byte>)
    requires |random| == 32 && Bin2Hex(random) !in db.codes
    requires LoggedIn(session) && Approved(req) && SubmissionComplete(req)
    requires req.post["client_id"] !in db.clients
    ensures Bin2Hex(random) in AuthorizeSubmit(db, session, req, now, random).db.codes
  {
  }

  // ------------------------------------------------------------------ token endpoint

  /** The success body of the token endpoint. */
  function TokenBody(t: TokenResponse): map<string, Value> {
    map["access_token" := Str(t.accessToken), "refresh_token" := Str(t.refreshToken),
        "token_type" := Str(t.tokenType), "expires_in" := Int(t.expiresIn), "scope" := Str(t.scope)]
  }

  /** A grant's result as the endpoint answers it. */
  function GrantAnswer(out: Option<TokenResponse>): (r: Response)
    ensures out.None? <==> r == JsonError(400, "invalid_grant")
    ensures out.Some? ==> r.JsonResponse? && r.status == 200 &&
                          "access_token" in r.body && r.body["access_token"] == Str(out.value.accessToken)
    ensures out.Some? ==>
      && r.body.Keys == {"access_token", "refresh_token", "token_type", "expires_in", "scope"}
      && r.body["refresh_token"] == Str(out.value.refreshToken)
      && r.body["token_type"] == Str(out.value.tokenType)
      && r.body["expires_in"] == Int(out.value.expiresIn)
      && r.body["scope"] == Str(out.value.scope)
  {
    match out
    case None => JsonError(400, "invalid_grant")
    case Some(t) => JsonResponse(200, TokenBody(t))
  }

  predicate CodeGrantComplete(req: Request) {
    && Post(req, "code").Some? && Post(req, "client_id").Some?
    && Post(req, "client_secret").Some? && Post(req, "redirect_uri").Some?
  }

  predicate RefreshGrantComplete(req: Request) {
    Post(req, "refresh_token").Some? && Post(req, "client_id").Some? && Post(req, "client_secret").Some?
  }

  /**
   * token: the two grants are delegated with the form fields (a missing one
   * is a TypeError); a failed grant is 400 invalid_grant, any other
   * grant_type 400 unsupported_grant_type.
   */
  function Token(db: Db, req: Request, now: int, accessBytes: seq<byte>, refreshBytes: seq<byte>): (r: Step<Response>)
    requires FreshPair(db, accessBytes, refreshBytes)
    ensures Post(req, "grant_type") != Some("authorization_code") && Post(req, "grant_type") != Some("refresh_token")
            ==> r == Step(db, JsonError(400, "unsupported_grant_type"))
    ensures Post(req, "grant_type") == Some("authorization_code") ==>
      if CodeGrantComplete(req) then
        var e := ExchangeCodeForToken(db, req.post["code"], req.post["client_id"], req.post["client_secret"],
                                      req.post["redirect_uri"], now, accessBytes, refreshBytes);
        r == Step(e.db, GrantAnswer(e.out))
      else r == Step(db, Fatal)
    ensures Post(req, "grant_type") == Some("refresh_token") ==>
      if RefreshGrantComplete(req) then
        var e := RefreshToken(db, req.post["refresh_token"], req.post["client_id"], req.post["client_secret"],
                              now, accessBytes, refreshBytes);
        r == Step(e.db, GrantAnswer(e.out))
      else r == Step(db, Fatal)
  {
    var grantType := Post(req, "grant_type");
    if grantType == Some("authorization_code") then
      if !CodeGrantComplete(req) then Step(db, Fatal)
      else
        var e := ExchangeCodeForToken(db, req.post["code"], req.post["client_id"], req.post["client_secret"],
                                      req.post["redirect_uri"], now, accessBytes, refreshBytes);
        Step(e.db, GrantAnswer(e.out))
    else if grantType == Some("refresh_token") then
      if !RefreshGrantComplete(req) then Step(db, Fatal)
      else
        var e := RefreshToken(db, req.post["refresh_token"], req.post["client_id"], req.post["client_secret"],
                              now, accessBytes, refreshBytes);
        Step(e.db, GrantAnswer(e.out))
    else Step(db, JsonError(400, "unsupported_grant_type"))
  }

  /** The token endpoint ignores a Basic header: only the form fields authenticate the client. */
  lemma TokenIgnoresHeaders(db: Db, req: Request, headers: map<string, string>, now: int,
                            accessBytes: seq<byte>, refreshBytes: seq<byte>)
    requires FreshPair(db, accessBytes, refreshBytes)
    ensures Token(db, req.(headers := headers), now, accessBytes, refreshBytes) == Token(db, req, now, accessBytes, refreshBytes)
  {
  }

  /**
   * Consent followed by the token request: the code that approval puts in
   * the redirect is exchanged, by the client it names with its secret and
   * the same redirect URI within ten minutes, for a token pair.
   */
  lemma ApprovalThenToken(db: Db, session: Session, submit: Request, now: int, random: seq<byte>,
                          tokenReq: Request, secret: string, later: int, accessBytes: seq<byte>, refreshBytes: seq<byte>)
    requires |random| == 32 && Bin2Hex(random) !in db.codes
    requires LoggedIn(session) && Approved(submit) && SubmissionComplete(submit)
    requires tokenReq.post == map["grant_type" := "authorization_code", "code" := Bin2Hex(random),
                                  "client_id" := submit.post["client_id"],
                                  "client_secret" := secret,
                                  "redirect_uri" := submit.post["redirect_uri"]]
    requires ClientAccepted(db, submit.post["client_id"], secret)
    requires now <= later <= now + CodeLifetime
    requires FreshPair(db, accessBytes, refreshBytes)
    ensures var db1 := AuthorizeSubmit(db, session, submit, now, random).db;
            FreshPair(db1, accessBytes, refreshBytes) &&
            var r := Token(db1, tokenReq, later, accessBytes, refreshBytes);
            && r.out.JsonResponse? && r.out.status == 200
            && r.out.body["access_token"] == Str(Bin2Hex(accessBytes))
            && r.db.tokens[db.nextTokenId].userId == session.userId.value
            && r.db.codes == db.codes
  {
    var clientId, uri := submit.post["client_id"], submit.post["redirect_uri"];
    GrantProperties.IssueThenExchange(db, clientId, secret, session.userId.value, uri,
                                      SubmittedScope(submit).value, now, random, later, accessBytes, refreshBytes);
    var db1 := AuthorizeSubmit(db, session, submit, now, random).db;
    assert db1.tokens == db.tokens;
  }

  // ------------------------------------------------------------------ introspection

  function ActiveBody(t: Token): map<string, Value> {
    map["active" := Bool(true), "scope" := Str(Join(" ", t.scope)), "client_id" := Str(t.clientId),
        "exp" := Int(t.expiresAt), "sub" := Str(NatToString(t.userId))]
  }

  const Inactive: Response := JsonResponse(200, map["active" := Bool(false)])

  /** The row introspection reports as active: the caller's own unexpired access token. */
  function LiveTokenOf(db: Db, caller: Client, tokenValue: Option<string>, now: int): (r: Option<nat>)
    ensures r.Some? ==>
      && Given(tokenValue) && r.value in db.tokens
      && db.tokens[r.value].accessToken == tokenValue.value
      && db.tokens[r.value].clientId == caller.clientId
      && !TokenModel.IsExpired(db.tokens[r.value], now)
    ensures r.None? <==>
      || !Given(tokenValue)
      || FindToken(db, AccessIs(tokenValue.value)).None?
      || db.tokens[FindToken(db, AccessIs(tokenValue.value)).value].clientId != caller.clientId
      || TokenModel.IsExpired(db.tokens[FindToken(db, AccessIs(tokenValue.value)).value], now)
  {
    if !Given(tokenValue) then None
    else match FindToken(db, AccessIs(tokenValue.value))
      case None => None
      case Some(k) =>
        var t := db.tokens[k];
        if t.clientId != caller.clientId || TokenModel.IsExpired(t, now) then None else Some(k)
  }

  /**
   * introspect: 401 invalid_client unless the caller authenticates; active
   * only for a live access token of the caller, with its scope, client, expiry
   * and user id as a string; {active: false} otherwise.
   */
  function Introspect(db: Db, req: Request, decode: Decoder, now: int): (r: Response)
    ensures AuthenticateClient(db, req, decode).None? <==> r == JsonError(401, "invalid_client")
    ensures AuthenticateClient(db, req, decode).Some? ==>
      var live := LiveTokenOf(db, AuthenticateClient(db, req, decode).value, Post(req, "token"), now);
      && (live.None? <==> r == Inactive)
      && (live.Some? ==> r == JsonResponse(200, ActiveBody(db.tokens[live.value])))
  {
    match AuthenticateClient(db, req, decode)
    case None => JsonError(401, "invalid_client")
    case Some(caller) =>
      match LiveTokenOf(db, caller, Post(req, "token"), now)
      case None => Inactive
      case Some(k) =>
        assert ActiveBody(db.tokens[k])["active"] == Bool(true);
        JsonResponse(200, ActiveBody(db.tokens[k]))
  }

  /** Introspection of an access token its own client has just obtained, within its lifetime. */
  lemma IntrospectExchangedToken(db: Db, code: string, clientId: string, clientSecret: string, redirectUri: string,
                                 now: int, accessBytes: seq<byte>, refreshBytes: seq<byte>,
                                 req: Request, decode: Decoder, later: int)
    requires Consistent(db) && FreshPair(db, accessBytes, refreshBytes)
    requires ExchangeCodeForToken(db, code, clientId, clientSecret, redirectUri, now, accessBytes, refreshBytes).out.Some?
    requires now <= later <= now + AccessLifetime
    requires Post(req, "token") == Some(Bin2Hex(accessBytes))
    ensures var db1 := ExchangeCodeForToken(db, code, clientId, clientSecret, redirectUri, now, accessBytes, refreshBytes).db;
            var caller := AuthenticateClient(db1, req, decode);
            caller.Some? ==>
              var r := Introspect(db1, req, decode, later);
              if caller.value.clientId == clientId then
                r == JsonResponse(200, ActiveBody(db1.tokens[db.nextTokenId]))
                && r.body["sub"] == Str(NatToString(db.codes[code].userId))
              else r == Inactive
  {
    var db1 := ExchangeCodeForToken(db, code, clientId, clientSecret, redirectUri, now, accessBytes, refreshBytes).db;
    GrantProperties.ExchangePreservesConsistency(db, code, clientId, clientSecret, redirectUri, now, accessBytes, refreshBytes);
    GrantProperties.FindUniqueAccess(db1, db.nextTokenId);
    assert PhpStrings.Truthy(Bin2Hex(accessBytes)) by {
      assert |Bin2Hex(accessBytes)| == 64;
    }
  }

  // ------------------------------------------------------------------ revocation

  const Success: Response := JsonResponse(200, map["success" := Bool(true)])

  /** The row revoke deletes: the first match by access or refresh value, if the caller owns it. */
  function RevokedRow(db: Db, caller: Client, tokenValue: string): (r: Option<nat>)
    ensures r.Some? ==> && r.value in db.tokens && db.tokens[r.value].clientId == caller.clientId
                        && (db.tokens[r.value].accessToken == tokenValue || db.tokens[r.value].refreshToken == tokenValue)
    ensures r.Some? <==> FindToken(db, AccessOrRefreshIs(tokenValue)).Some?
                         && db.tokens[FindToken(db, AccessOrRefreshIs(tokenValue)).value].clientId == caller.clientId
    ensures r.Some? ==> forall j :: j in db.tokens && j < r.value ==> !AccessOrRefreshIs(tokenValue)(db.tokens[j])
  {
    match FindToken(db, AccessOrRefreshIs(tokenValue))
    case None => None
    case Some(k) =>
      assert AccessOrRefreshIs(tokenValue)(db.tokens[k]);
      if db.tokens[k].clientId == caller.clientId then Some(k) else None
  }

  /**
   * revoke: 401 invalid_client unless the caller authenticates, 400
   * invalid_request without a token value, otherwise {success: true} whether
   * or not a token of the caller was deleted; other clients' tokens stay.
   */
  function Revoke(db: Db, req: Request, decode: Decoder): (r: Step<Response>)
    ensures AuthenticateClient(db, req, decode).None? ==> r == Step(db, JsonError(401, "invalid_client"))
    ensures AuthenticateClient(db, req, decode).Some? && !Given(Post(req, "token")) ==>
      r == Step(db, JsonError(400, "invalid_request"))
    ensures AuthenticateClient(db, req, decode).Some? && Given(Post(req, "token")) ==> r.out == Success
    ensures r.db == db || exists k :: k in db.tokens && r.db == db.(tokens := db.tokens - {k})
    ensures forall k :: k in db.tokens && k !in r.db.tokens ==>
      && AuthenticateClient(db, req, decode).Some?
      && db.tokens[k].clientId == AuthenticateClient(db, req, decode).value.clientId
      && Given(Post(req, "token"))
      && (db.tokens[k].accessToken == req.post["token"] || db.tokens[k].refreshToken == req.post["token"])
  {
    match AuthenticateClient(db, req, decode)
    case None => Step(db, JsonError(401, "invalid_client"))
    case Some(caller) =>
      var tokenValue := Post(req, "token");
      if !Given(tokenValue) then Step(db, JsonError(400, "invalid_request"))
      else match RevokedRow(db, caller, tokenValue.value)
        case None => Step(db, Success)
        case Some(k) => Step(db.(tokens := db.tokens - {k}), Success)
  }

  /** Revoking one's own token removes every row carrying the value. */
  lemma RevokeOwnToken(db: Db, req: Request, decode: Decoder, k: nat)
    requires Consistent(db)
    requires AuthenticateClient(db, req, decode).Some? && Given(Post(req, "token"))
    requires k in db.tokens && db.tokens[k].clientId == AuthenticateClient(db, req, decode).value.clientId
    requires db.tokens[k].accessToken == req.post["token"] || db.tokens[k].refreshToken == req.post["token"]
    ensures var db1 := Revoke(db, req, decode).db;
            forall j :: j in db1.tokens ==>
              db1.tokens[j].accessToken != req.post["token"] && db1.tokens[j].refreshToken != req.post["token"]
  {
    var v := req.post["token"];
    Tables.FirstKeyComplete(db.tokens, AccessOrRefreshIs(v), db.nextTokenId, k);
    var f := FindToken(db, AccessOrRefreshIs(v)).value;
    assert f == k;
  }

  /** Repeating a revocation is harmless: the same answer, and the tables stay as the first call left them. */
  lemma RevokeTwice(db: Db, req: Request, decode: Decoder)
    requires Consistent(db)
    ensures var first := Revoke(db, req, decode);
            Revoke(first.db, req, decode) == first
  {
    var first := Revoke(db, req, decode);
    if first.db != db {
      var caller := AuthenticateClient(db, req, decode).value;
      var v := req.post["token"];
      var k := RevokedRow(db, caller, v).value;
      assert first.db == RevokeToken(db, v).db;
      GrantProperties.RevokeIdempotent(db, v);
      assert first.db.clients == db.clients;
      assert AuthenticateClient(first.db, req, decode) == AuthenticateClient(db, req, decode);
    }
  }

  // ------------------------------------------------------------------ userinfo

  function UserInfoBody(c: UserContext): map<string, Value> {
    map["user_id" := Int(c.userId), "username" := Str(c.username), "email" := Str(c.email),
        "name" := (if c.name.Some? then Str(c.name.value) else Null), "scope" := List(StrList(c.scope))]
  }

  /** A truthy Authorization header that starts with "Bearer ". */
  predicate UsesBearer(req: Request) {
    Given(Header(req, "authorization")) && StartsWith(Header(req, "authorization").value, "Bearer ")
  }

  /**
   * userinfo: 401 unauthorized without a Bearer header, 401 invalid_token when
   * the text after "Bearer " does not validate, the user's data otherwise.
   */
  function Userinfo(db: Db, req: Request, now: int): (r: Response)
    ensures !UsesBearer(req) ==> r == JsonError(401, "unauthorized")
    ensures UsesBearer(req) ==>
      var presented := req.headers["authorization"][7..];
      && "Bearer " + presented == req.headers["authorization"]
      && (r == JsonError(401, "invalid_token") <==> ValidateAccessToken(db, presented, now).None?)
      && (r.JsonResponse? && r.status == 200 ==>
            ValidateAccessToken(db, presented, now).Some? &&
            r.body == UserInfoBody(ValidateAccessToken(db, presented, now).value))
    ensures UsesBearer(req) && ValidateAccessToken(db, req.headers["authorization"][7..], now).Some? ==>
      r == JsonResponse(200, UserInfoBody(ValidateAccessToken(db, req.headers["authorization"][7..], now).value))
    ensures r.JsonResponse? && (r.status == 200 || r.status == 401)
  {
    if !UsesBearer(req) then JsonError(401, "unauthorized")
    else
      var auth := req.headers["authorization"];
      assert auth == auth[..7] + auth[7..];
      match ValidateAccessToken(db, auth[7..], now)
      case None => JsonError(401, "invalid_token")
      case Some(info) => JsonResponse(200, UserInfoBody(info))
  }

  /** Userinfo with the access token an exchange returned answers with the code's user while the token lives. */
  lemma UserinfoAfterExchange(db: Db, code: string, clientId: string, clientSecret: string, redirectUri: string,
                              now: int, accessBytes: seq<byte>, refreshBytes: seq<byte>, req: Request, later: int)
    requires Consistent(db) && FreshPair(db, accessBytes, refreshBytes)
    requires ExchangeCodeForToken(db, code, clientId, clientSecret, redirectUri, now, accessBytes, refreshBytes).out.Some?
    requires now <= later <= now + AccessLifetime
    requires Header(req, "authorization") == Some("Bearer " + Bin2Hex(accessBytes))
    requires db.codes[code].userId in db.users.rows && db.users.rows[db.codes[code].userId].status == 1
    ensures var db1 := ExchangeCodeForToken(db, code, clientId, clientSecret, redirectUri, now, accessBytes, refreshBytes).db;
            var r := Userinfo(db1, req, later);
            r.JsonResponse? && r.status == 200 && r.body["user_id"] == Int(db.codes[code].userId)
  {
    var auth := req.headers["authorization"];
    assert auth[..7] == "Bearer " && auth[7..] == Bin2Hex(accessBytes);
    GrantProperties.ExchangedTokenValidates(db, code, clientId, clientSecret, redirectUri, now,
                                            accessBytes, refreshBytes, later);
  }
}
