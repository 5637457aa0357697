/**
 * The Eloquent relations between the records. Codes and tokens belong to a
 * client through its public client_id string, not its internal id; tokens,
 * codes and clients belong to a user through user_id.
 */
module Relations {
  import opened Wrappers
  import opened UserModel
  import opened ClientModel
  import opened TokenModel
  import opened CodeModel

  /** OAuthClient::authorizationCodes(): the codes whose client_id is the client's public id. */
  function ClientCodes(c: Client, codes: map<string, AuthorizationCode>): set<string> {
    set k | k in codes && codes[k].clientId == c.clientId
  }

  /** OAuthClient::tokens(): the token rows whose client_id is the client's public id. */
  function ClientTokens(c: Client, tokens: map<nat, Token>): set<nat> {
    set k | k in tokens && tokens[k].clientId == c.clientId
  }

  /** OAuthToken::client() / OAuthAuthorizationCode::client(), with clients keyed by client_id. */
  function ClientById(clientId: string, clients: map<string, Client>): Option<Client> {
    if clientId in clients then Some(clients[clientId]) else None
  }

  /** OAuthToken::user(), OAuthAuthorizationCode::user(), OAuthClient::user(): belongsTo by user_id. */
  function Owner(userId: nat, users: Users): Option<User> {
    Find(users, userId)
  }

  /**
   * Which codes and tokens a client owns depends only on its public client_id:
   * two clients with the same client_id but different internal ids, names or
   * secrets own the same records, and a record moves with its client_id.
   */
  lemma RelationsFollowPublicId(c1: Client, c2: Client, codes: map<string, AuthorizationCode>, tokens: map<nat, Token>)
    ensures c1.clientId == c2.clientId ==> ClientCodes(c1, codes) == ClientCodes(c2, codes)
    ensures c1.clientId == c2.clientId ==> ClientTokens(c1, tokens) == ClientTokens(c2, tokens)
    ensures forall k :: k in tokens ==> (k in ClientTokens(c1, tokens) <==> tokens[k].clientId == c1.clientId)
    ensures forall k :: k in codes ==> (k in ClientCodes(c1, codes) <==> codes[k].clientId == c1.clientId)
  {
  }
}
