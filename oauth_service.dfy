/**
 * OAuthService as the object the controllers call: it owns the tables and
 * updates them in place. Each method changes exactly what the matching
 * function of GrantEngine says, so the properties proved there hold of it.
 */
module OAuthService {
  import opened Wrappers
  import opened PhpStrings
  import opened UserModel
  import opened ClientModel
  import opened TokenModel
  import opened CodeModel
  import opened GrantEngine
  import GrantProperties

  class Service {
    var clients: map<string, Client>
    var codes: map<string, AuthorizationCode>
    var tokens: map<nat, Token>
    var nextTokenId: nat
    var users: Users

    /** The tables as one value. */
    function State(): Db
      reads this
    {
      Db(clients, codes, tokens, nextTokenId, users)
    }

    ghost predicate Valid()
      reads this
    {
      Consistent(State())
    }

    constructor (db: Db)
      requires Consistent(db)
      ensures State() == db && Valid()
    {
      clients, codes, tokens, nextTokenId, users := db.clients, db.codes, db.tokens, db.nextTokenId, db.users;
    }

    method GenerateAuthorizationCode(clientId: string, userId: nat, redirectUri: string, scope: seq<string>,
                                     now: int, random: seq<byte>) returns (code: string)
      requires Valid()
      requires |random| == 32 && Bin2Hex(random) !in codes
      modifies this
      ensures Valid()
      ensures var r := GrantEngine.GenerateAuthorizationCode(old(State()), clientId, userId, redirectUri, scope, now, random);
              State() == r.db && code == r.out
    {
      GrantProperties.IssuePreservesConsistency(State(), clientId, userId, redirectUri, scope, now, random);
      code := Bin2Hex(random);
      codes := codes[code := AuthorizationCode(code, clientId, userId, redirectUri, scope, now + CodeLifetime)];
    }

    method ExchangeCodeForToken(code: string, clientId: string, clientSecret: string, redirectUri: string,
                                now: int, accessBytes: seq<byte>, refreshBytes: seq<byte>)
      returns (response: Option<TokenResponse>)
      requires Valid() && FreshPair(State(), accessBytes, refreshBytes)
      modifies this
      ensures Valid()
      ensures var r := GrantEngine.ExchangeCodeForToken(old(State()), code, clientId, clientSecret, redirectUri, now,
                                                        accessBytes, refreshBytes);
              State() == r.db && response == r.out
    {
      GrantProperties.ExchangePreservesConsistency(State(), code, clientId, clientSecret, redirectUri, now,
                                                   accessBytes, refreshBytes);
      var client := EnabledClient(State(), clientId);
      if client.None? || !ValidateSecret(client.value, clientSecret) {
        return None;
      }
      if code !in codes || codes[code].clientId != clientId {
        return None;
      }
      var authCode := codes[code];
      if CodeModel.IsExpired(authCode, now) {
        codes := codes - {code};
        return None;
      }
      if authCode.redirectUri != redirectUri {
        return None;
      }
      var accessToken := Bin2Hex(accessBytes);
      var refreshToken := Bin2Hex(refreshBytes);
      tokens := tokens[nextTokenId := NewToken(accessToken, refreshToken, clientId, authCode.userId, authCode.scope, now)];
      nextTokenId := nextTokenId + 1;
      codes := codes - {code};
      response := Some(Issued(accessToken, refreshToken, authCode.scope));
    }

    method RefreshToken(refreshToken: string, clientId: string, clientSecret: string, now: int,
                        accessBytes: seq<byte>, refreshBytes: seq<byte>) returns (response: Option<TokenResponse>)
      requires Valid() && FreshPair(State(), accessBytes, refreshBytes)
      modifies this
      ensures Valid()
      ensures var r := GrantEngine.RefreshToken(old(State()), refreshToken, clientId, clientSecret, now,
                                                accessBytes, refreshBytes);
              State() == r.db && response == r.out
    {
      GrantProperties.RefreshPreservesConsistency(State(), refreshToken, clientId, clientSecret, now,
                                                  accessBytes, refreshBytes);
      var client := EnabledClient(State(), clientId);
      if client.None? || !ValidateSecret(client.value, clientSecret) {
        return None;
      }
      var found := FindToken(State(), RefreshFor(refreshToken, clientId));
      if found.None? {
        return None;
      }
      var token := tokens[found.value];
      if IsRefreshExpired(token, now) {
        return None;
      }
      var accessToken := Bin2Hex(accessBytes);
      var newRefresh := Bin2Hex(refreshBytes);
      tokens := tokens[found.value := token.(accessToken := accessToken, refreshToken := newRefresh,
                                             expiresAt := now + AccessLifetime,
                                             refreshExpiresAt := now + RefreshLifetime)];
      response := Some(Issued(accessToken, newRefresh, token.scope));
    }

    /** validateAccessToken only reads the tables. */
    method ValidateAccessToken(accessToken: string, now: int) returns (context: Option<UserContext>)
      ensures context == GrantEngine.ValidateAccessToken(State(), accessToken, now)
    {
      var found := FindToken(State(), AccessIs(accessToken));
      if found.None? {
        return None;
      }
      var token := tokens[found.value];
      if TokenModel.IsExpired(token, now) {
        return None;
      }
      var user := Find(users, token.userId);
      if user.None? || user.value.status != 1 {
        return None;
      }
      var u := user.value;
      context := Some(UserContext(u.id, u.username, u.email, u.name, token.scope));
    }

    method RevokeToken(token: string) returns (revoked: bool)
      requires Valid()
      modifies this
      ensures Valid()
      ensures var r := GrantEngine.RevokeToken(old(State()), token); State() == r.db && revoked == r.out
    {
      GrantProperties.RevokePreservesConsistency(State(), token);
      var found := FindToken(State(), AccessOrRefreshIs(token));
      if found.None? {
        return false;
      }
      tokens := tokens - {found.value};
      revoked := true;
    }

    /** `$token->delete()` on a row a caller has looked up. */
    method DeleteToken(id: nat)
      requires Valid()
      modifies this
      ensures Valid()
      ensures State() == old(State()).(tokens := old(tokens) - {id})
    {
      tokens := tokens - {id};
      assert forall k :: k in tokens ==> tokens[k] == old(tokens)[k];
    }
  }
}
