/**
 * The authorization-code and refresh-token grants (RFC 6749, sections 4.1 and
 * 6) as functions of the database state: each operation maps the four tables
 * (clients, authorization codes, tokens, users) and its inputs to the new
 * tables and its result. Time is an integer `now` in seconds; the random
 * bytes the source draws from random_bytes() are inputs.
 */
module GrantEngine {
  import opened Wrappers
  import opened PhpStrings
  import opened Tables
  import opened UserModel
  import opened ClientModel
  import opened TokenModel
  import opened CodeModel

  const CodeLifetime: int := 600
  const AccessLifetime: int := 7200
  const RefreshLifetime: int := 30 * 86400

  /**
   * The tables: clients keyed by their public client_id, codes keyed by the
   * code value, tokens keyed by their auto-increment row id, and users.
   */
  datatype Db = Db(
    clients: map<string, Client>,
    codes: map<string, AuthorizationCode>,
    tokens: map<nat, Token>,
    nextTokenId: nat,
    users: Users)

  /** No two token values coincide, within a row or across rows. */
  ghost predicate TokenValuesDistinct(tokens: map<nat, Token>) {
    && (forall k :: k in tokens ==> tokens[k].accessToken != tokens[k].refreshToken)
    && (forall k, l :: k in tokens && l in tokens && k != l ==>
          && tokens[k].accessToken != tokens[l].accessToken
          && tokens[k].refreshToken != tokens[l].refreshToken
          && tokens[k].accessToken != tokens[l].refreshToken)
  }

  ghost predicate Consistent(db: Db) {
    && (forall id :: id in db.clients ==> db.clients[id].clientId == id)
    && (forall c :: c in db.codes ==> db.codes[c].code == c)
    && IdsBelow(db.tokens, db.nextTokenId)
    && TokenValuesDistinct(db.tokens)
    && UserModel.Valid(db.users)
  }

  /** A value no stored token uses, as access or as refresh token. */
  predicate UnusedTokenValue(db: Db, v: string) {
    forall k :: k in db.tokens ==> db.tokens[k].accessToken != v && db.tokens[k].refreshToken != v
  }

  /** The random input for a new token pair: 32 bytes each, two distinct values no token uses yet. */
  predicate FreshPair(db: Db, accessBytes: seq<byte>, refreshBytes: seq<byte>) {
    && |accessBytes| == 32 && |refreshBytes| == 32
    && Bin2Hex(accessBytes) != Bin2Hex(refreshBytes)
    && UnusedTokenValue(db, Bin2Hex(accessBytes))
    && UnusedTokenValue(db, Bin2Hex(refreshBytes))
  }

  /** The tables after an operation, and what it returned. */
  datatype Step<T> = Step(db: Db, out: T)

  /** The token endpoint's success body. */
  datatype TokenResponse = TokenResponse(
    accessToken: string,
    refreshToken: string,
    tokenType: string,
    expiresIn: int,
    scope: string)

  /** What validateAccessToken returns for a live token of an enabled user. */
  datatype UserContext = UserContext(
    userId: nat,
    username: string,
    email: string,
    name: Option<string>,
    scope: seq<string>)

  /** `OAuthClient::where('client_id', id)->where('status', 1)->first()`. */
  function EnabledClient(db: Db, clientId: string): Option<Client> {
    if clientId in db.clients && db.clients[clientId].status == 1 then Some(db.clients[clientId]) else None
  }

  /** The client check both grants start with: enabled, and the secret matches. */
  predicate ClientAccepted(db: Db, clientId: string, secret: string) {
    EnabledClient(db, clientId).Some? && ValidateSecret(EnabledClient(db, clientId).value, secret)
  }

  /** `where('authorization_code', code)->where('client_id', clientId)->first()` finds a row. */
  predicate CodeIssuedTo(db: Db, code: string, clientId: string) {
    code in db.codes && db.codes[code].clientId == clientId
  }

  function AccessIs(v: string): Token -> bool {
    (t: Token) => t.accessToken == v
  }

  function RefreshFor(v: string, clientId: string): Token -> bool {
    (t: Token) => t.refreshToken == v && t.clientId == clientId
  }

  function AccessOrRefreshIs(v: string): Token -> bool {
    (t: Token) => t.accessToken == v || t.refreshToken == v
  }

  /** `OAuthToken::where(...)->first()`: the matching row with the least id. */
  function FindToken(db: Db, p: Token -> bool): Option<nat> {
    FirstKey(db.tokens, p, 0, db.nextTokenId)
  }

  /** The new token row a grant writes. */
  function NewToken(access: string, refresh: string, clientId: string, userId: nat, scope: seq<string>, now: int): Token {
    Token(access, refresh, clientId, userId, scope, now + AccessLifetime, now + RefreshLifetime)
  }

  function Issued(access: string, refresh: string, scope: seq<string>): TokenResponse {
    TokenResponse(access, refresh, "Bearer", AccessLifetime, Join(" ", scope))
  }

  // ------------------------------------------------------------------ operations

  /**
   * generateAuthorizationCode: a 64-hex-digit code is stored with the given
   * client, user, redirect URI and scope, expiring 600 seconds from now. No
   * client or redirect check happens here.
   */
  function GenerateAuthorizationCode(db: Db, clientId: string, userId: nat, redirectUri: string,
                                     scope: seq<string>, now: int, random: seq<byte>): (r: Step<string>)
    requires |random| == 32 && Bin2Hex(random) !in db.codes
    ensures |r.out| == 64 && IsLowerHex(r.out)
    ensures r.out == Bin2Hex(random)
    ensures r.out !in db.codes && r.db.codes.Keys == db.codes.Keys + {r.out}
    ensures r.db.codes[r.out] == AuthorizationCode(r.out, clientId, userId, redirectUri, scope, now + 600)
    ensures forall c :: c in db.codes ==> r.db.codes[c] == db.codes[c]
    ensures r.db == db.(codes := r.db.codes)
  {
    var code := Bin2Hex(random);
    Step(db.(codes := db.codes[code := AuthorizationCode(code, clientId, userId, redirectUri, scope, now + CodeLifetime)]), code)
  }

  /**
   * exchangeCodeForToken. It fails with the tables unchanged when the client
   * is unknown, disabled or presents the wrong secret, when no code with that
   * value was issued to that client, or when the redirect URI differs from the
   * one bound to the code; an expired code is deleted and the exchange fails.
   * Otherwise one token row is added, the code is deleted and the pair returned.
   */
  function ExchangeCodeForToken(db: Db, code: string, clientId: string, clientSecret: string,
                                redirectUri: string, now: int,
                                accessBytes: seq<byte>, refreshBytes: seq<byte>): (r: Step<Option<TokenResponse>>)
    requires FreshPair(db, accessBytes, refreshBytes)
    ensures r.out.Some? <==>
      && ClientAccepted(db, clientId, clientSecret)
      && CodeIssuedTo(db, code, clientId)
      && !CodeModel.IsExpired(db.codes[code], now)
      && db.codes[code].redirectUri == redirectUri
    ensures !ClientAccepted(db, clientId, clientSecret) ==> r == Step(db, None)
    ensures !CodeIssuedTo(db, code, clientId) ==> r == Step(db, None)
    ensures (ClientAccepted(db, clientId, clientSecret) && CodeIssuedTo(db, code, clientId) &&
             CodeModel.IsExpired(db.codes[code], now)) ==> r == Step(db.(codes := db.codes - {code}), None)
    ensures (CodeIssuedTo(db, code, clientId) && db.codes[code].redirectUri != redirectUri &&
             !CodeModel.IsExpired(db.codes[code], now)) ==> r == Step(db, None)
    ensures r.out.Some? ==>
      var ac := db.codes[code];
      var access, refresh := Bin2Hex(accessBytes), Bin2Hex(refreshBytes);
      && r.out.value == TokenResponse(access, refresh, "Bearer", 7200, Join(" ", ac.scope))
      && r.db == db.(codes := db.codes - {code},
                     tokens := db.tokens[db.nextTokenId := Token(access, refresh, clientId, ac.userId, ac.scope,
                                                                 now + 7200, now + 30 * 86400)],
                     nextTokenId := db.nextTokenId + 1)
  {
    if !ClientAccepted(db, clientId, clientSecret) then Step(db, None)
    else if !CodeIssuedTo(db, code, clientId) then Step(db, None)
    else
      var authCode := db.codes[code];
      if CodeModel.IsExpired(authCode, now) then Step(db.(codes := db.codes - {code}), None)
      else if authCode.redirectUri != redirectUri then Step(db, None)
      else
        var access, refresh := Bin2Hex(accessBytes), Bin2Hex(refreshBytes);
        var token := NewToken(access, refresh, clientId, authCode.userId, authCode.scope, now);
        var db' := db.(tokens := db.tokens[db.nextTokenId := token], nextTokenId := db.nextTokenId + 1);
        Step(db'.(codes := db.codes - {code}), Some(Issued(access, refresh, authCode.scope)))
  }

  /**
   * refreshToken. It fails with the tables unchanged when the client check
   * fails, when no token of that client carries the refresh value, or when
   * its refresh expiry has passed. Otherwise the row is rotated in place: new
   * access and refresh values and both expiries; user, client and scope stay.
   */
  function RefreshToken(db: Db, refreshToken: string, clientId: string, clientSecret: string, now: int,
                        accessBytes: seq<byte>, refreshBytes: seq<byte>): (r: Step<Option<TokenResponse>>)
    requires FreshPair(db, accessBytes, refreshBytes)
    ensures r.out.None? ==> r.db == db
    ensures !ClientAccepted(db, clientId, clientSecret) ==> r.out.None?
    ensures r.out.Some? <==>
      && ClientAccepted(db, clientId, clientSecret)
      && FindToken(db, RefreshFor(refreshToken, clientId)).Some?
      && !IsRefreshExpired(db.tokens[FindToken(db, RefreshFor(refreshToken, clientId)).value], now)
    ensures r.out.Some? ==>
      var k := FindToken(db, RefreshFor(refreshToken, clientId)).value;
      var t := db.tokens[k];
      var access, refresh := Bin2Hex(accessBytes), Bin2Hex(refreshBytes);
      && t.refreshToken == refreshToken && t.clientId == clientId
      && r.out.value == TokenResponse(access, refresh, "Bearer", 7200, Join(" ", t.scope))
      && r.db == db.(tokens := db.tokens[k := t.(accessToken := access, refreshToken := refresh,
                                                  expiresAt := now + 7200, refreshExpiresAt := now + 30 * 86400)])
  {
    if !ClientAccepted(db, clientId, clientSecret) then Step(db, None)
    else match FindToken(db, RefreshFor(refreshToken, clientId))
      case None => Step(db, None)
      case Some(k) =>
        var t := db.tokens[k];
        if IsRefreshExpired(t, now) then Step(db, None)
        else
          var access, refresh := Bin2Hex(accessBytes), Bin2Hex(refreshBytes);
          var t' := t.(accessToken := access, refreshToken := refresh,
                       expiresAt := now + AccessLifetime, refreshExpiresAt := now + RefreshLifetime);
          Step(db.(tokens := db.tokens[k := t']), Some(Issued(access, refresh, t.scope)))
  }

  /**
   * validateAccessToken: nothing when the value is not a stored access token,
   * the token has expired, or its user is missing or not enabled; otherwise
   * the user's identity and the token's scope.
   */
  function ValidateAccessToken(db: Db, accessToken: string, now: int): (r: Option<UserContext>)
    ensures r.Some? <==>
      && FindToken(db, AccessIs(accessToken)).Some?
      && var t := db.tokens[FindToken(db, AccessIs(accessToken)).value];
         && !TokenModel.IsExpired(t, now)
         && Find(db.users, t.userId).Some?
         && Find(db.users, t.userId).value.status == 1
    ensures r.Some? ==>
      var t := db.tokens[FindToken(db, AccessIs(accessToken)).value];
      var u := db.users.rows[t.userId];
      && t.accessToken == accessToken
      && r.value == UserContext(u.id, u.username, u.email, u.name, t.scope)
  {
    match FindToken(db, AccessIs(accessToken))
    case None => None
    case Some(k) =>
      var t := db.tokens[k];
      if TokenModel.IsExpired(t, now) then None
      else match Find(db.users, t.userId)
        case None => None
        case Some(u) => if u.status != 1 then None else Some(UserContext(u.id, u.username, u.email, u.name, t.scope))
  }

  /**
   * revokeToken: deletes the first token whose access or refresh value is the
   * given one, whatever client it belongs to, and says whether it deleted one.
   */
  function RevokeToken(db: Db, token: string): (r: Step<bool>)
    ensures r.out <==> FindToken(db, AccessOrRefreshIs(token)).Some?
    ensures IdsBelow(db.tokens, db.nextTokenId) ==>
      (r.out <==> exists k :: k in db.tokens && (db.tokens[k].accessToken == token || db.tokens[k].refreshToken == token))
    ensures !r.out ==> r.db == db
    ensures r.out ==> r.db == db.(tokens := db.tokens - {FindToken(db, AccessOrRefreshIs(token)).value})
  {
    match FindToken(db, AccessOrRefreshIs(token))
    case None => Step(db, false)
    case Some(k) =>
      assert AccessOrRefreshIs(token)(db.tokens[k]);
      Step(db.(tokens := db.tokens - {k}), true)
  }

  /** generateClientCredentials: "client_" and 32 hex digits, and a 64-hex-digit secret. */
  function GenerateClientCredentials(idBytes: seq<byte>, secretBytes: seq<byte>): (r: (string, string))
    requires |idBytes| == 16 && |secretBytes| == 32
    ensures |r.0| == 39 && r.0[..7] == "client_" && IsLowerHex(r.0[7..])
    ensures |r.1| == 64 && IsLowerHex(r.1)
  {
    var id := "client_" + Bin2Hex(idBytes);
    assert id[7..] == Bin2Hex(idBytes);
    (id, Bin2Hex(secretBytes))
  }
}
