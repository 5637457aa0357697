/**
 * Sign-in through a third-party provider: the identity fields a provider
 * returns reduced to one fixed record, the local account found or created
 * for it (with a username nobody has yet), and the callback that checks the
 * CSRF state, records the provider binding and signs the user in. The two
 * HTTP calls to the provider are supplied as their parsed results.
 */
module ThirdParty {
  import opened Wrappers
  import opened PhpStrings
  import opened Json
  import opened Http
  import opened Tables
  import opened UserModel
  import opened ProviderModel

  // ------------------------------------------------------------------ normalizeUserInfo

  const NormalizedKeys: set<string> := {"id", "username", "email", "avatar"}

  /** `$data[k]` when it is set, else the empty string. */
  function Field(data: map<string, Value>, k: string): (v: Value)
    ensures Present(data, k) ==> v == data[k]
    ensures !Present(data, k) ==> v == Str("")
  {
    Coalesce(data, [k], Str(""))
  }

  /**
   * normalizeUserInfo: always the four keys id, username, email and avatar,
   * each taken from the provider's own field names. A fallback is used only
   * when the earlier field is missing or null, never when it is empty.
   */
  function NormalizeUserInfo(slug: string, data: map<string, Value>): (r: map<string, Value>)
    ensures r.Keys == NormalizedKeys
    ensures forall k :: k in r ==> r[k] != Null
    ensures r["email"] == Field(data, "email")
    ensures slug == "github" ==>
      && r["id"] == Str(ToString(Field(data, "id")))
      && r["username"] == Field(data, "login")
      && r["avatar"] == Field(data, "avatar_url")
    ensures slug == "google" ==>
      && r["id"] == (if Present(data, "id") then data["id"] else Field(data, "sub"))
      && r["username"] == (if Present(data, "name") then data["name"] else Field(data, "email"))
      && r["avatar"] == Field(data, "picture")
    ensures slug != "github" && slug != "google" ==>
      && r["id"] == Str(ToString(Coalesce(data, ["id", "sub", "user_id"], Str(""))))
      && r["username"] == Coalesce(data, ["username", "login", "name", "nickname"], Str(""))
      && r["avatar"] == Coalesce(data, ["avatar", "avatar_url", "picture"], Str(""))
  {
    var (id, username, avatar) :=
      if slug == "github" then
        (Str(ToString(Coalesce(data, ["id"], Str("")))), Coalesce(data, ["login"], Str("")),
         Coalesce(data, ["avatar_url"], Str("")))
      else if slug == "google" then
        (Coalesce(data, ["id", "sub"], Str("")), Coalesce(data, ["name", "email"], Str("")),
         Coalesce(data, ["picture"], Str("")))
      else
        (Str(ToString(Coalesce(data, ["id", "sub", "user_id"], Str("")))),
         Coalesce(data, ["username", "login", "name", "nickname"], Str("")),
         Coalesce(data, ["avatar", "avatar_url", "picture"], Str("")));
    NonNullCoalesce(data, ["id", "sub"]);
    NonNullCoalesce(data, ["name", "email"]);
    NonNullCoalesce(data, ["username", "login", "name", "nickname"]);
    NonNullCoalesce(data, ["avatar", "avatar_url", "picture"]);
    map["id" := id, "username" := username, "email" := Coalesce(data, ["email"], Str("")), "avatar" := avatar]
  }

  /** `??` with a non-null default never yields null. */
  lemma {:induction false} NonNullCoalesce(data: map<string, Value>, keys: seq<string>)
    ensures Coalesce(data, keys, Str("")) != Null
  {
    if keys != [] && !Present(data, keys[0]) {
      NonNullCoalesce(data, keys[1..]);
    }
  }

  /** An empty Google display name is kept: `??` does not fall back to the email. */
  lemma EmptyNameIsKept(data: map<string, Value>)
    requires "name" in data && data["name"] == Str("")
    ensures NormalizeUserInfo("google", data)["username"] == Str("")
  {
  }

  /** A generic provider that sends only `sub` is identified by it, as a string. */
  lemma GenericIdFromSub(data: map<string, Value>, sub: string)
    requires "id" !in data && "user_id" !in data
    requires "sub" in data && data["sub"] == Str(sub)
    ensures NormalizeUserInfo("custom", data)["id"] == Str(sub)
  {
    assert Coalesce(data, ["id", "sub", "user_id"], Str("")) == Coalesce(data, ["sub", "user_id"], Str(""));
  }

  // ------------------------------------------------------------------ createOrFindUser

  /** The string the query binds for a normalised value. */
  function Email(info: map<string, Value>): string
    requires NormalizedKeys <= info.Keys
  {
    ToString(info["email"])
  }

  /** A non-empty email that already belongs to a user: that user is returned and nothing is created. */
  predicate ReusesAccount(users: Users, info: map<string, Value>)
    requires NormalizedKeys <= info.Keys
  {
    Json.Truthy(info["email"]) && FirstWhere(users, EmailIs(Email(info))).Some?
  }

  /** The provider's username, or "user_" and eight random hex digits when it is falsy. */
  function BaseUsername(info: map<string, Value>, random4: seq<byte>): (base: string)
    requires NormalizedKeys <= info.Keys
    requires |random4| == 4
    ensures !Json.Truthy(info["username"]) ==> |base| == 13 && StartsWith(base, "user_")
  {
    if Json.Truthy(info["username"]) then ToString(info["username"]) else "user_" + Bin2Hex(random4)
  }

  /** The k-th name tried: the base itself, then base_1, base_2, ... */
  function Candidate(base: string, k: nat): (name: string)
    ensures k == 0 ==> name == base
    ensures k > 0 ==> |name| > |base| + 1 && name[..|base| + 1] == base + "_"
  {
    if k == 0 then base else base + "_" + NatToString(k)
  }

  /** Different counters never give the same name. */
  lemma CandidateInjective(base: string, i: nat, j: nat)
    ensures Candidate(base, i) == Candidate(base, j) ==> i == j
  {
    if i > 0 && j > 0 && Candidate(base, i) == Candidate(base, j) {
      assert Candidate(base, i)[|base| + 1..] == NatToString(i);
      assert Candidate(base, j)[|base| + 1..] == NatToString(j);
      NatToStringInjective(i, j);
    }
  }

  /** The usernames in use. */
  function TakenNames(users: Users): set<string> {
    set k | k in users.rows :: users.rows[k].username
  }

  /** `User::where('username', name)->exists()`. */
  predicate Taken(users: Users, name: string) {
    name in TakenNames(users)
  }

  /** The first n candidates. */
  function CandidatesBelow(base: string, n: nat): set<string>
    decreases n
  {
    if n == 0 then {} else CandidatesBelow(base, n - 1) + {Candidate(base, n - 1)}
  }

  lemma {:induction false} CandidatesBelowMember(base: string, n: nat, j: nat)
    requires j < n
    ensures Candidate(base, j) in CandidatesBelow(base, n)
  {
    if j < n - 1 {
      CandidatesBelowMember(base, n - 1, j);
    }
  }

  lemma {:induction false} CandidateNotBelow(base: string, n: nat, m: nat)
    requires n <= m
    ensures Candidate(base, m) !in CandidatesBelow(base, n)
  {
    if n > 0 {
      CandidateNotBelow(base, n - 1, m);
      CandidateInjective(base, n - 1, m);
    }
  }

  /** name is the first free candidate: free itself, every earlier one taken. */
  ghost predicate IsLeastFreeCandidate(users: Users, base: string, name: string) {
    exists k: nat :: name == Candidate(base, k) && !Taken(users, Candidate(base, k))
                     && forall j: nat :: j < k ==> Taken(users, Candidate(base, j))
  }

  /** The first free candidate is unique: the loop's answer is determined by the table. */
  lemma LeastFreeCandidateUnique(users: Users, base: string, a: string, b: string)
    requires IsLeastFreeCandidate(users, base, a) && IsLeastFreeCandidate(users, base, b)
    ensures a == b
  {
    var ka: nat :| a == Candidate(base, ka) && !Taken(users, Candidate(base, ka))
                   && forall j: nat :: j < ka ==> Taken(users, Candidate(base, j));
    var kb: nat :| b == Candidate(base, kb) && !Taken(users, Candidate(base, kb))
                   && forall j: nat :: j < kb ==> Taken(users, Candidate(base, j));
  }

  /** A free base name is used as it is. */
  lemma FreeBaseKept(users: Users, base: string, name: string)
    requires !Taken(users, base) && IsLeastFreeCandidate(users, base, name)
    ensures name == base
  {
    assert IsLeastFreeCandidate(users, base, base) by {
      assert base == Candidate(base, 0);
    }
    LeastFreeCandidateUnique(users, base, name, base);
  }

  function NewEmail(info: map<string, Value>, username: string): string
    requires NormalizedKeys <= info.Keys
  {
    if Json.Truthy(info["email"]) then Email(info) else username + "@oauth.local"
  }

  function NewName(info: map<string, Value>, username: string): string
    requires NormalizedKeys <= info.Keys
  {
    if Json.Truthy(info["username"]) then ToString(info["username"]) else username
  }

  /** What createOrFindUser returns: the account with that email, or a new one under the first free name. */
  ghost predicate FoundOrCreated(users: Users, info: map<string, Value>, random4: seq<byte>, passwordHash: string,
                                 users': Users, user: User)
    requires NormalizedKeys <= info.Keys && |random4| == 4
  {
    if ReusesAccount(users, info) then
      users' == users && user == FirstWhere(users, EmailIs(Email(info))).value
    else
      && IsLeastFreeCandidate(users, BaseUsername(info, random4), user.username)
      && (users', user) == Create(users, user.username, NewEmail(info, user.username),
                                  Some(NewName(info, user.username)), passwordHash, 0, 1)
  }

  /**
   * createOrFindUser. The loop tries the base name and then base_1, base_2,
   * ... until one is free; it ends because each name it passes over belongs
   * to a different existing user.
   */
  method CreateOrFindUser(users: Users, info: map<string, Value>, random4: seq<byte>, passwordHash: string)
    returns (users': Users, user: User)
    requires NormalizedKeys <= info.Keys && |random4| == 4
    ensures FoundOrCreated(users, info, random4, passwordHash, users', user)
    ensures ReusesAccount(users, info) ==> users' == users && user in users.rows.Values
    ensures !ReusesAccount(users, info) ==>
      && !Taken(users, user.username)
      && user.id == users.nextId && user.isAdmin == 0 && user.status == 1
      && user.email == NewEmail(info, user.username)
      && users'.rows == users.rows[users.nextId := user]
    ensures Valid(users) ==> Valid(users')
    ensures Valid(users) && UsernamesUnique(users) ==> UsernamesUnique(users')
  {
    if Json.Truthy(info["email"]) {
      var existing := FirstWhere(users, EmailIs(Email(info)));
      if existing.Some? {
        return users, existing.value;
      }
    }
    var username := FirstFreeName(users, BaseUsername(info, random4));
    var created := Create(users, username, NewEmail(info, username), Some(NewName(info, username)), passwordHash, 0, 1);
    users', user := created.0, created.1;
    if Valid(users) && UsernamesUnique(users) {
      FreeNameKeepsUnique(users, user);
    }
  }

  /** Adding a user whose username is free keeps usernames unique. */
  lemma FreeNameKeepsUnique(users: Users, user: User)
    requires Valid(users) && UsernamesUnique(users) && !Taken(users, user.username)
    ensures UsernamesUnique(Users(users.rows[users.nextId := user], users.nextId + 1))
  {
    assert forall k :: k in users.rows ==> users.rows[k].username in TakenNames(users);
  }

  /** The while loop of createOrFindUser: the base name, then base_1, base_2, ... until one is free. */
  method FirstFreeName(users: Users, base: string) returns (username: string)
    ensures !Taken(users, username)
    ensures IsLeastFreeCandidate(users, base, username)
  {
    username := base;
    var counter: nat := 1;
    while Taken(users, username)
      invariant username == Candidate(base, counter - 1)
      invariant CandidatesBelow(base, counter - 1) <= TakenNames(users)
      decreases |TakenNames(users) - CandidatesBelow(base, counter - 1)|
    {
      CandidateNotBelow(base, counter - 1, counter - 1);
      NotYetTried(TakenNames(users), CandidatesBelow(base, counter - 1), username);
      username := base + "_" + NatToString(counter);
      counter := counter + 1;
    }
    forall j: nat | j < counter - 1 ensures Taken(users, Candidate(base, j)) {
      CandidatesBelowMember(base, counter - 1, j);
    }
    assert username == Candidate(base, counter - 1);
  }

  /** Passing over a taken name that was not tried before shrinks what is left to try. */
  lemma NotYetTried(taken: set<string>, tried: set<string>, name: string)
    requires tried <= taken && name in taken && name !in tried
    ensures |taken - (tried + {name})| < |taken - tried|
  {
    assert taken - (tried + {name}) == (taken - tried) - {name};
  }

  // ------------------------------------------------------------------ callback

  /** A link between a local user and an account at a provider. */
  datatype Binding = Binding(
    userId: nat,
    providerId: nat,
    providerUserId: string,
    providerUsername: Value,
    providerEmail: Value,
    providerAvatar: Value,
    accessToken: string,
    refreshToken: Option<string>,
    tokenExpiresAt: Option<int>)

  /** The users table and the bindings table. */
  datatype Accounts = Accounts(users: Users, bindings: map<nat, Binding>, nextBindingId: nat)

  /** What the provider's token endpoint returned: an access token, and optionally a refresh token and a lifetime. */
  datatype TokenData = TokenData(accessToken: string, refreshToken: Option<string>, expiresIn: Option<int>)

  datatype CallbackOutcome = CallbackOutcome(accounts: Accounts, session: Session, response: Response)

  const InvalidState: string := "无效的OAuth状态"
  const ProviderMismatch: string := "OAuth提供商不匹配"
  const TokenFailed: string := "获取访问令牌失败"
  const UserInfoFailed: string := "获取用户信息失败"

  /** OAuthProvider::find(id): the row with that id, whatever its status; nothing for a null id. */
  function ProviderById(rows: seq<Provider>, id: Option<nat>): (r: Option<Provider>)
    ensures r.Some? ==> r.value in rows && id == Some(r.value.id)
    ensures r.None? <==> id.None? || forall i :: 0 <= i < |rows| ==> rows[i].id != id.value
  {
    if id.None? || rows == [] then None
    else if rows[0].id == id.value then Some(rows[0])
    else
      assert forall i :: 1 <= i < |rows| ==> rows[i] == rows[1..][i - 1];
      ProviderById(rows[1..], id)
  }

  predicate ProviderError(req: Request) {
    Given(Get(req, "error"))
  }

  /** The returned state is truthy and identical to the one kept in the session. */
  predicate StateAccepted(session: Session, req: Request) {
    Given(Get(req, "state")) && session.oauthState == Get(req, "state")
  }

  /** The provider remembered in the session exists and is the one in the route. */
  predicate ProviderMatches(providers: seq<Provider>, session: Session, slug: string) {
    ProviderById(providers, session.oauthProviderId).Some?
    && ProviderById(providers, session.oauthProviderId).value.slug == slug
  }

  predicate ChecksPass(providers: seq<Provider>, session: Session, req: Request, slug: string) {
    !ProviderError(req) && StateAccepted(session, req) && ProviderMatches(providers, session, slug)
  }

  /** The session without the one-time state and provider id. */
  function Cleared(session: Session): (s: Session)
    ensures s.oauthState.None? && s.oauthProviderId.None?
    ensures s.userId == session.userId && s.username == session.username
  {
    session.(oauthState := None, oauthProviderId := None)
  }

  /** The session after sign-in; reading the id of a missing user yields null. */
  function SignedIn(session: Session, user: Option<User>): (s: Session)
    ensures s.oauthState.None? && s.oauthProviderId.None?
    ensures user.Some? ==> s.userId == Some(user.value.id) && s.username == Some(user.value.username)
    ensures user.None? ==> s.userId.None? && s.username.None?
  {
    match user
    case Some(u) => Cleared(session).(userId := Some(u.id), username := Some(u.username))
    case None => Cleared(session).(userId := None, username := None)
  }

  /** Back to the pending authorization request, else the home page. */
  function Landing(pending: Option<seq<(string, string)>>): (r: Response)
    ensures r.Redirect?
    ensures pending.Some? && pending.value != [] ==> r.location == "/oauth/authorize?" + BuildQuery(pending.value)
    ensures (pending.None? || pending.value == []) ==> r.location == "/"
  {
    if pending.Some? && pending.value != [] then Redirect("/oauth/authorize?" + BuildQuery(pending.value))
    else Redirect("/")
  }

  /** The string findByProviderUser is called with; an array is a TypeError. */
  function ProviderUserId(v: Value): (r: Option<string>)
    ensures r.None? <==> v.List?
    ensures v.Str? ==> r == Some(v.s)
  {
    if v.List? then None else Some(ToString(v))
  }

  function BindingFor(providerId: nat, providerUserId: string): Binding -> bool {
    (b: Binding) => b.providerId == providerId && b.providerUserId == providerUserId
  }

  /** findByProviderUser. */
  function FindBinding(accounts: Accounts, providerId: nat, providerUserId: string): Option<nat> {
    FirstKey(accounts.bindings, BindingFor(providerId, providerUserId), 0, accounts.nextBindingId)
  }

  function ExpiresAt(token: TokenData, now: int): Option<int> {
    if token.expiresIn.Some? then Some(now + token.expiresIn.value) else None
  }

  /** The binding after a repeat sign-in: the profile fields and the provider's tokens are replaced. */
  function Refreshed(b: Binding, info: map<string, Value>, token: TokenData, now: int): (r: Binding)
    requires NormalizedKeys <= info.Keys
    ensures r.userId == b.userId && r.providerId == b.providerId && r.providerUserId == b.providerUserId
    ensures r.accessToken == token.accessToken && r.refreshToken == token.refreshToken
    ensures r.providerUsername == info["username"] && r.providerEmail == info["email"] && r.providerAvatar == info["avatar"]
    ensures r.tokenExpiresAt == ExpiresAt(token, now)
  {
    b.(providerUsername := info["username"], providerEmail := info["email"], providerAvatar := info["avatar"],
       accessToken := token.accessToken, refreshToken := token.refreshToken, tokenExpiresAt := ExpiresAt(token, now))
  }

  function NewBinding(userId: nat, providerId: nat, providerUserId: string, info: map<string, Value>,
                      token: TokenData, now: int): (r: Binding)
    requires NormalizedKeys <= info.Keys
    ensures BindingFor(providerId, providerUserId)(r) && r.userId == userId
  {
    Binding(userId, providerId, providerUserId, info["username"], info["email"], info["avatar"],
            token.accessToken, token.refreshToken, ExpiresAt(token, now))
  }

  /** Row ids lie below the next id and no two bindings share a provider and a provider user id. */
  ghost predicate BindingsValid(accounts: Accounts) {
    && IdsBelow(accounts.bindings, accounts.nextBindingId)
    && forall j, k :: j in accounts.bindings && k in accounts.bindings && j != k ==>
         !BindingFor(accounts.bindings[j].providerId, accounts.bindings[j].providerUserId)(accounts.bindings[k])
  }

  /**
   * callback. `tokenData` is what exchangeCodeForToken returned for this
   * provider, code and redirect URI, `userData` the decoded JSON array
   * getUserInfo received (nothing when either call failed), `pending` the
   * decoded oauth_request cookie, `random4` the bytes for a generated
   * username and `passwordHash` the hash of the unusable random password a
   * new account gets.
   */
  method Callback(accounts: Accounts, providers: seq<Provider>, session: Session, req: Request, slug: string,
                  tokenData: Option<TokenData>, userData: Option<map<string, Value>>,
                  pending: Option<seq<(string, string)>>, now: int, random4: seq<byte>, passwordHash: string)
    returns (r: CallbackOutcome)
    requires |random4| == 4
    ensures ProviderError(req) ==>
      r == CallbackOutcome(accounts, session, ErrorView("OAuth授权失败：" + req.query["error"]))
    ensures !ProviderError(req) && !StateAccepted(session, req) ==>
      r == CallbackOutcome(accounts, session, ErrorView(InvalidState))
    ensures !ProviderError(req) && StateAccepted(session, req) && !ProviderMatches(providers, session, slug) ==>
      r == CallbackOutcome(accounts, session, ErrorView(ProviderMismatch))
    ensures ChecksPass(providers, session, req, slug) ==> r.session.oauthState.None? && r.session.oauthProviderId.None?
    ensures ChecksPass(providers, session, req, slug) && Get(req, "code").None? ==>
      r == CallbackOutcome(accounts, Cleared(session), Fatal)
    ensures ChecksPass(providers, session, req, slug) && Get(req, "code").Some? && tokenData.None? ==>
      r == CallbackOutcome(accounts, Cleared(session), ErrorView(TokenFailed))
    ensures ChecksPass(providers, session, req, slug) && Get(req, "code").Some? && tokenData.Some? && userData.None? ==>
      r == CallbackOutcome(accounts, Cleared(session), ErrorView(UserInfoFailed))
    ensures ChecksPass(providers, session, req, slug) && Get(req, "code").Some? && tokenData.Some? && userData.Some? ==>
      var info := NormalizeUserInfo(slug, userData.value);
      var pid := ProviderById(providers, session.oauthProviderId).value.id;
      && (ProviderUserId(info["id"]).None? ==> r == CallbackOutcome(accounts, Cleared(session), Fatal))
      && (ProviderUserId(info["id"]).Some? && FindBinding(accounts, pid, ProviderUserId(info["id"]).value).Some? ==>
            var k := FindBinding(accounts, pid, ProviderUserId(info["id"]).value).value;
            && r.accounts == accounts.(bindings := accounts.bindings[k := Refreshed(accounts.bindings[k], info, tokenData.value, now)])
            && r.session == SignedIn(session, Find(accounts.users, accounts.bindings[k].userId))
            && r.response == Landing(pending))
      && (ProviderUserId(info["id"]).Some? && FindBinding(accounts, pid, ProviderUserId(info["id"]).value).None? ==>
            exists user :: FoundOrCreated(accounts.users, info, random4, passwordHash, r.accounts.users, user)
              && r.accounts.bindings == accounts.bindings[accounts.nextBindingId :=
                   NewBinding(user.id, pid, ProviderUserId(info["id"]).value, info, tokenData.value, now)]
              && r.accounts.nextBindingId == accounts.nextBindingId + 1
              && r.session == SignedIn(session, Some(user))
              && r.response == Landing(pending))
    ensures BindingsValid(accounts) ==> BindingsValid(r.accounts)
    ensures Valid(accounts.users) ==> Valid(r.accounts.users)
  {
    var error := Get(req, "error");
    if Given(error) {
      return CallbackOutcome(accounts, session, ErrorView("OAuth授权失败：" + error.value));
    }
    var state := Get(req, "state");
    if !Given(state) || session.oauthState != state {
      return CallbackOutcome(accounts, session, ErrorView(InvalidState));
    }
    var provider := ProviderById(providers, session.oauthProviderId);
    if provider.None? || provider.value.slug != slug {
      return CallbackOutcome(accounts, session, ErrorView(ProviderMismatch));
    }
    var cleared := Cleared(session);
    if Get(req, "code").None? {
      return CallbackOutcome(accounts, cleared, Fatal);
    }
    if tokenData.None? {
      return CallbackOutcome(accounts, cleared, ErrorView(TokenFailed));
    }
    if userData.None? {
      return CallbackOutcome(accounts, cleared, ErrorView(UserInfoFailed));
    }
    var info := NormalizeUserInfo(provider.value.slug, userData.value);
    var providerUserId := ProviderUserId(info["id"]);
    if providerUserId.None? {
      return CallbackOutcome(accounts, cleared, Fatal);
    }
    var pid := provider.value.id;
    var found := FindBinding(accounts, pid, providerUserId.value);
    if found.Some? {
      var k := found.value;
      var b := accounts.bindings[k];
      var updated := accounts.(bindings := accounts.bindings[k := Refreshed(b, info, tokenData.value, now)]);
      r := CallbackOutcome(updated, SignedIn(session, Find(accounts.users, b.userId)), Landing(pending));
      if BindingsValid(accounts) {
        RefreshKeepsBindingsValid(accounts, k, Refreshed(b, info, tokenData.value, now));
      }
    } else {
      var users', user := CreateOrFindUser(accounts.users, info, random4, passwordHash);
      var binding := NewBinding(user.id, pid, providerUserId.value, info, tokenData.value, now);
      var next := Accounts(users', accounts.bindings[accounts.nextBindingId := binding], accounts.nextBindingId + 1);
      r := CallbackOutcome(next, SignedIn(session, Some(user)), Landing(pending));
      if BindingsValid(accounts) {
        NewBindingKeepsValid(accounts, users', binding);
      }
    }
  }

  /** Replacing a binding by one with the same provider and provider user id keeps the table valid. */
  lemma RefreshKeepsBindingsValid(accounts: Accounts, k: nat, b: Binding)
    requires BindingsValid(accounts) && k in accounts.bindings
    requires b.providerId == accounts.bindings[k].providerId && b.providerUserId == accounts.bindings[k].providerUserId
    ensures BindingsValid(accounts.(bindings := accounts.bindings[k := b]))
  {
  }

  /** A binding for a provider user nobody is bound to yet keeps the table valid. */
  lemma NewBindingKeepsValid(accounts: Accounts, users': Users, b: Binding)
    requires BindingsValid(accounts)
    requires FindBinding(accounts, b.providerId, b.providerUserId).None?
    ensures BindingsValid(Accounts(users', accounts.bindings[accounts.nextBindingId := b], accounts.nextBindingId + 1))
  {
    var p := BindingFor(b.providerId, b.providerUserId);
    forall j | j in accounts.bindings ensures !p(accounts.bindings[j]) {
      if p(accounts.bindings[j]) {
        FirstKeyComplete(accounts.bindings, p, accounts.nextBindingId, j);
      }
    }
  }
}
