# wind_oauth authorization server — a Dafny model

wind_oauth is a PHP (webman) OAuth 2.0 authorization server. This project
models its core:

- **The grant engine (`OAuthService`).** It issues authorization codes,
  exchanges them for access/refresh token pairs (RFC 6749, section 4.1),
  rotates a token pair on refresh (RFC 6749, section 6), validates access
  tokens and revokes tokens.
- **The endpoints around it (`OauthController`):**
  - client authentication by HTTP Basic (RFC 7617, section 2) or by form fields;
  - the authorization page's guards;
  - the approval step;
  - the token endpoint;
  - introspection (RFC 7662, section 2.2);
  - revocation (RFC 7009, section 2.2);
  - userinfo with a Bearer header (RFC 6750, section 2.1).
- **The record predicates:** client secret and redirect checks, and token
  and code expiry.
- **The CORS middleware.** It follows the CORS protocol of the WHATWG Fetch
  Standard, section 3.2.
- **Local login, registration and password change.**
- **Sign-in through third-party providers.** This covers the identity
  normalisation, the unique-username loop, and the callback with its binding
  upsert.
- **The provider list and the provider authorize URL.**

## How it is built

- **State and time.**
  - The server's tables (clients, codes, tokens, users) form one value, `GrantEngine.Db`.
  - Every operation is a function from a `Db` to a `Step` (the new tables plus the answer).
  - Time is an integer number of seconds (`now`).
  - Random bytes are parameters. `FreshPair` states that the two token values are 64 lowercase hex characters, distinct, and not yet in the store.
- **Proofs.** `GrantProperties` proves the engine's properties over these functions.
- **Stateful layer.**
  - `OAuthService.Service` holds the tables in fields and updates them in place.
  - `OauthController.Controller` and `Cors.HttpResponse` work the same way.
  - Each method's postcondition ties the new state to the matching function applied to the old state, so the proved properties carry over to the objects.
- **PHP semantics, written out:**
  - truthiness: `""` and `"0"` are falsy;
  - `??` falls back only on a missing or null value;
  - `strlen` counts UTF-8 bytes;
  - `urlencode` writes a space as `+`;
  - `preg_match`'s `$` also matches before a final newline;
  - a `TypeError`, such as a missing string argument passed to a typed parameter, becomes the `Fatal` response (HTTP 500).
- **Supplied as parameters:**
  - `base64_decode`, `password_verify`, `password_hash` and `json_decode`;
  - the two HTTP calls to a third-party provider.

## Model

| member | source | states |
|---|---|---|
| GrantEngine.GenerateAuthorizationCode | app/service/OAuthService.php:14-32 | the code is bin2hex of the 32 random bytes (64 lowercase hex characters); exactly one record is added under it, holding the given client, user, redirect URI and scope with expires_at = now + 600; nothing else changes |
| GrantEngine.ExchangeCodeForToken | app/service/OAuthService.php:37-96 | succeeds iff the client is enabled, the secret matches, the code was issued to that client_id, it is unexpired and the redirect URI equals the bound one; an unknown/disabled client or wrong secret changes nothing; an expired code is deleted; a redirect mismatch keeps the code; success adds one token (code's user and scope, now+7200, now+30 days), deletes the code, answers Bearer/7200/space-joined scope |
| GrantEngine.RefreshToken | app/service/OAuthService.php:101-142 | fails without change for a bad client, an unknown (refresh value, client_id) or a refresh-expired token; otherwise rewrites that row in place, changing only the two values and the two expiries |
| GrantEngine.ValidateAccessToken | app/service/OAuthService.php:147-166 | none iff the access value is unknown, the token is expired, or its user is missing or not status 1; otherwise the user's id, username, email, name and the token's scope |
| GrantEngine.RevokeToken | app/service/OAuthService.php:172-184 | deletes the first token whose access or refresh value matches, with no client check, and answers true iff one was deleted |
| GrantEngine.GenerateClientCredentials | app/service/OAuthService.php:189-195 | client id "client_" + 32 lowercase hex characters, secret 64 lowercase hex characters |
| GrantProperties.IssuePreservesConsistency | app/service/OAuthService.php:14-32 | issuing a code keeps the tables consistent (keys match records, token ids below the next id, token values distinct) |
| GrantProperties.AddTokenKeepsDistinct | app/service/OAuthService.php:73-87 | adding a token with fresh values keeps all token values distinct |
| GrantProperties.ExchangePreservesConsistency | app/service/OAuthService.php:37-96 | an exchange, successful or not, keeps the tables consistent |
| GrantProperties.RefreshPreservesConsistency | app/service/OAuthService.php:101-142 | a refresh keeps the tables consistent |
| GrantProperties.RevokePreservesConsistency | app/service/OAuthService.php:172-184 | a revocation keeps the tables consistent |
| GrantProperties.IssueThenExchange | app/service/OAuthService.php:14-96 | a code just issued, exchanged by its client with the same redirect URI before it expires, yields a token for that user and scope |
| GrantProperties.CodeIsSingleUse | app/service/OAuthService.php:73-95 | after a successful exchange the same code cannot be exchanged again |
| GrantProperties.OnlyIssuingClientExchanges | app/service/OAuthService.php:53-58 | a code presented by any other client_id fails and changes nothing |
| GrantProperties.FindUniqueAccess | app/service/OAuthService.php:149 | with distinct token values the lookup by access value finds exactly the row holding it |
| GrantProperties.ExchangedTokenValidates | app/service/OAuthService.php:73-166 | the access token an exchange returns validates, while unexpired, to the code's user and scope |
| GrantProperties.ExpiredAccessTokenRejected | app/service/OAuthService.php:152-154 | a token already expired at some instant is rejected at that instant and every later one |
| GrantProperties.RefreshRotates | app/service/OAuthService.php:124-141 | after a refresh the old values no longer match, the new values find the same row, and user, client and scope are unchanged |
| GrantProperties.OldRefreshValueFails | app/service/OAuthService.php:116-122 | a second refresh with the superseded refresh value fails |
| GrantProperties.RevokeRemovesValue | app/service/OAuthService.php:172-184 | after revocation no row carries the revoked value |
| GrantProperties.RevokeIdempotent | app/service/OAuthService.php:172-184 | revoking the same value twice leaves the tables as the first call did and the second answers false |
| OAuthService.Service.constructor | app/service/OAuthService.php:9-10 | the service holds the given consistent tables |
| OAuthService.Service.GenerateAuthorizationCode | app/service/OAuthService.php:14-32 | the fields become GrantEngine.GenerateAuthorizationCode of the old tables; consistency is kept |
| OAuthService.Service.ExchangeCodeForToken | app/service/OAuthService.php:37-96 | the fields become GrantEngine.ExchangeCodeForToken of the old tables, the answer is its result; consistency is kept |
| OAuthService.Service.RefreshToken | app/service/OAuthService.php:101-142 | the fields become GrantEngine.RefreshToken of the old tables; the row is updated in place |
| OAuthService.Service.ValidateAccessToken | app/service/OAuthService.php:147-166 | the answer is GrantEngine.ValidateAccessToken of the current tables |
| OAuthService.Service.RevokeToken | app/service/OAuthService.php:172-184 | the fields become GrantEngine.RevokeToken of the old tables |
| OAuthService.Service.DeleteToken | app/controller/OauthController.php:236-238 | removes exactly that token row and keeps consistency |
| ClientModel.ValidateSecret | app/model/OAuthClient.php:59-62 | true iff the candidate equals the stored secret character by character |
| ClientModel.ValidateRedirectUri | app/model/OAuthClient.php:67-70 | true iff the URI equals the registered one exactly |
| ClientModel.RedirectAllowsNoExtension | app/model/OAuthClient.php:69 | any URI extending or truncating the registered one is refused |
| ClientModel.ToArray | app/model/OAuthClient.php:21-30 | client_secret is not serialised; grant_types and scope are arrays |
| TokenModel.ExpiryInstants | app/model/OAuthToken.php:47-58 | valid at expires_at, expired one second later and forever after; the same for the refresh expiry, independently |
| CodeModel.ExpiryInstants | app/model/OAuthAuthorizationCode.php:45-48 | a code is valid at expires_at (issue time + 600), expired one second later and forever after |
| Relations.RelationsFollowPublicId | app/model/OAuthClient.php:43-54 | a client's codes and tokens are those carrying its public client_id string, whatever its internal id |
| Endpoints.PresentedCredentials | app/controller/OauthController.php:23-35 | with a "Basic " header: the decoded text split at the first ':' (nothing if it does not decode); otherwise the form fields |
| Endpoints.AuthenticateClient | app/controller/OauthController.php:21-44 | a client iff the id and secret are truthy, the client is enabled and the secret matches; the one none otherwise |
| Endpoints.BasicHeaderOverridesForm | app/controller/OauthController.php:25-35 | with a Basic header the form fields never matter, even when the header does not decode |
| Endpoints.BasicSplitsAtFirstColon | app/controller/OauthController.php:28-30 | "id:secret" authenticates as id even when the secret contains ':' |
| Endpoints.RequestedScopes | app/controller/OauthController.php:92 | a name is requested iff it is a truthy space-separated piece of the scope parameter; no name contains a space |
| Endpoints.RequestedScopesOfConcat | app/controller/OauthController.php:92 | the scopes of "a b" are those of a followed by those of b, so the pieces keep their written order |
| Endpoints.RequestedScopesOfJoin | app/controller/OauthController.php:92 | a list joined with spaces is read back as the same list |
| Endpoints.OfferedScopes | app/controller/OauthController.php:93 | exactly the catalogue scopes that were requested |
| Endpoints.Authorize | app/controller/OauthController.php:49-102 | rejects a missing client_id/redirect_uri or response_type other than "code", then an unknown/disabled client or inexact redirect, asks for login with the saved query, rejects a missing or disabled user, otherwise the consent page |
| Endpoints.StateSuffix | app/controller/OauthController.php:123-125 | "&state=" + urlencoded state iff the state is truthy |
| Endpoints.AuthorizeSubmit | app/controller/OauthController.php:107-144 | 401 without a session user; a refusal redirects with error=access_denied and the state suffix and creates no code; approval issues a code and redirects with it |
| Endpoints.SubmitDoesNotCheckClient | app/controller/OauthController.php:129-135 | approval issues a code even for a client_id no client has |
| Endpoints.GrantAnswer | app/controller/OauthController.php:167-171 | a failed grant is 400 invalid_grant; success is 200 with exactly access_token, refresh_token, token_type, expires_in and scope taken from the issued pair |
| Endpoints.Token | app/controller/OauthController.php:149-191 | dispatches authorization_code and refresh_token to the engine; any other grant_type is 400 unsupported_grant_type with no change |
| Endpoints.TokenIgnoresHeaders | app/controller/OauthController.php:151-153 | the token endpoint reads the client only from the form |
| Endpoints.ApprovalThenToken | app/controller/OauthController.php:130-171 | the code an approval issues, posted to the token endpoint by its client in time, yields a token |
| Endpoints.LiveTokenOf | app/controller/OauthController.php:206-208 | the row reported active is an unexpired access token of the calling client |
| Endpoints.Introspect | app/controller/OauthController.php:196-218 | 401 invalid_client iff authentication fails; active:false for a missing, unknown, foreign or expired token; else active with scope, client_id, exp and sub |
| Endpoints.IntrospectExchangedToken | app/controller/OauthController.php:196-218 | a token its own client just obtained is reported active with the code's user as sub |
| Endpoints.RevokedRow | app/controller/OauthController.php:233-236 | a row is chosen iff the first match by either value (least id) exists and belongs to the caller; then it is that row |
| Endpoints.Revoke | app/controller/OauthController.php:223-240 | 401 on failed authentication, 400 invalid_request without a token, otherwise success:true, deleting only the caller's own row |
| Endpoints.RevokeOwnToken | app/controller/OauthController.php:233-238 | revoking one's own token removes its value from the store |
| Endpoints.RevokeTwice | app/controller/OauthController.php:223-240 | a second identical revocation answers the same and changes nothing |
| Endpoints.Userinfo | app/controller/OauthController.php:245-261 | 401 unauthorized unless the header starts with "Bearer "; the rest of the header is validated; 401 invalid_token iff that fails, otherwise 200 with the user's fields |
| Endpoints.UserinfoAfterExchange | app/controller/OauthController.php:245-261 | the access token from an exchange answers with the code's user while it lives |
| OauthController.Controller.constructor | app/controller/OauthController.php:16-19 | the controller uses the given service |
| OauthController.Controller.AuthorizeSubmit | app/controller/OauthController.php:107-144 | the service's tables become Endpoints.AuthorizeSubmit of the old ones, the response is its answer |
| OauthController.Controller.Token | app/controller/OauthController.php:149-191 | the service's tables become Endpoints.Token of the old ones |
| OauthController.Controller.Revoke | app/controller/OauthController.php:223-240 | the service's tables become Endpoints.Revoke of the old ones |
| Cors.ConfiguredOrigins | app/middleware/Cors.php:16 | the trimmed, truthy comma-separated entries of the configured string |
| Cors.ConfiguredOriginsOfList | app/middleware/Cors.php:16 | a list of trimmed entries written with commas is read back as the same list |
| Cors.ResolveAllowedOrigin | app/middleware/Cors.php:10-24 | none without a truthy Origin or with an empty list; "*" when listed; else the request's origin iff listed; never anything else |
| Cors.WildcardAnswersEveryOrigin | app/middleware/Cors.php:20-22 | with "*" configured every request naming an origin gets "*" |
| Cors.PreflightHeaders | app/middleware/Cors.php:31-44 | Allow-Methods, Max-Age 86400, Allow-Headers echoed or defaulted; Allow-Origin and Vary only when an origin resolves |
| Cors.ResponseHeaders | app/middleware/Cors.php:52-58 | nothing when no origin resolves, else the four CORS headers |
| Cors.HttpResponse.constructor | app/middleware/Cors.php:45 | a response with the given body, status and headers |
| Cors.HttpResponse.WithHeaders | app/middleware/Cors.php:53 | the given headers are set over the existing ones; status and body unchanged |
| Cors.Preflight | app/middleware/Cors.php:29-45 | a fresh 200 response with an empty body and the preflight headers |
| Cors.Decorate | app/middleware/Cors.php:51-59 | adds the CORS headers to the response only when an origin resolves |
| Cors.Process | app/middleware/Cors.php:26-62 | OPTIONS answers the preflight, whose contract does not mention the next handler, which is never called; other requests get the next handler's answer with the headers added when an origin resolves |
| AuthController.ResumeTarget | app/controller/AuthController.php:76-88 | "/oauth/authorize?" + the saved query (and clear_cookie) when the cookie held a non-empty array, else "/profile" |
| AuthController.ResumeCarriesQuery | app/controller/AuthController.php:80-82 | the resumed URL carries every saved parameter back, urlencoded, in order |
| AuthController.LoginSubmit | app/controller/AuthController.php:46-89 | 400 before any lookup when a field is falsy; the same 401 for an unknown identifier (username or email) and a wrong password; 403 for a disabled account only after the password verified; the session changes only on success |
| AuthController.PatternAcceptsTrailingNewline | app/controller/AuthController.php:127 | the username pattern as written accepts "abc\n" |
| AuthController.PatternCharacters | app/controller/AuthController.php:127 | an accepted username has 3 to 20 word characters, plus at most a final newline |
| AuthController.RegisterSubmit | app/controller/AuthController.php:115-178 | the five checks in order with their messages; success creates one enabled non-admin user with the next id and signs in |
| AuthController.RegistrationKeepsUsernamesUnique | app/controller/AuthController.php:136-154 | registration never creates a second user with an existing username |
| AuthController.RegisteredUserCanLogIn | app/controller/AuthController.php:46-158 | a new user logs in with the chosen username and password, unless an earlier account has that username as its email |
| AuthController.ProfilePassword | app/controller/AuthController.php:234-267 | 401, 404, then 400 unless the old password verifies, then 400 for a new password under 6 bytes; success changes only that user's hash |
| AuthController.PasswordChangeTouchesOnlyTheHash | app/controller/AuthController.php:258-263 | every other field and user, and the ids, stay as they were |
| ProviderModel.ToArray | app/model/OAuthProvider.php:25-27 | client_secret is not serialised |
| ProviderModel.FindBySlug | app/model/OAuthProvider.php:57-60 | the first enabled provider with that slug in row order (every earlier row differs), none iff there is none |
| ProviderModel.Insert | app/model/OAuthProvider.php:50 | inserting into a sorted list keeps it sorted and adds exactly that row |
| ProviderModel.GetActive | app/model/OAuthProvider.php:47-52 | exactly the status-1 providers, each once per row, ordered by sort_order |
| ProviderModel.AuthorizeParams | app/model/OAuthProvider.php:67-76 | client_id, redirect_uri, response_type=code, state, then scope only when truthy |
| ProviderModel.BuildAuthorizeUrl | app/model/OAuthProvider.php:78 | the authorize URL followed by "?" |
| ProviderModel.AuthorizeUrlFields | app/model/OAuthProvider.php:65-79 | the query splits back into one urlencoded name=value field per parameter, in order |
| ThirdParty.NormalizeUserInfo | app/controller/ThirdPartyOAuthController.php:226-259 | exactly the keys id, username, email, avatar, none null; the github, google and generic field mappings, falling back only on missing or null |
| ThirdParty.NonNullCoalesce | app/controller/ThirdPartyOAuthController.php:238-255 | a fallback chain ending in '' never yields null |
| ThirdParty.EmptyNameIsKept | app/controller/ThirdPartyOAuthController.php:246 | an empty Google name is kept rather than replaced by the email |
| ThirdParty.GenericIdFromSub | app/controller/ThirdPartyOAuthController.php:252 | a generic provider sending only sub is identified by it |
| ThirdParty.BaseUsername | app/controller/ThirdPartyOAuthController.php:275 | the provider username, or "user_" + 8 hex digits when it is falsy |
| ThirdParty.CandidateInjective | app/controller/ThirdPartyOAuthController.php:279-282 | different counters give different names |
| ThirdParty.LeastFreeCandidateUnique | app/controller/ThirdPartyOAuthController.php:279-282 | the first free candidate is determined by the table |
| ThirdParty.FreeBaseKept | app/controller/ThirdPartyOAuthController.php:275-279 | a free base name is used unchanged |
| ThirdParty.FirstFreeName | app/controller/ThirdPartyOAuthController.php:276-282 | the loop ends with a free name: the base if free, else base_k for the least k with all earlier candidates taken |
| ThirdParty.CreateOrFindUser | app/controller/ThirdPartyOAuthController.php:264-295 | an existing user with the same truthy email is returned and nothing is created; otherwise one user is added under a free name, email or name@oauth.local, is_admin 0, status 1; usernames stay unique |
| ThirdParty.FreeNameKeepsUnique | app/controller/ThirdPartyOAuthController.php:285-292 | adding a user under a free name keeps usernames unique |
| ThirdParty.ProviderById | app/controller/ThirdPartyOAuthController.php:57-58 | the provider with the session's id, of any status; none for a null id |
| ThirdParty.ProviderUserId | app/controller/ThirdPartyOAuthController.php:84 | the provider user id as a string; an array is a TypeError |
| ThirdParty.Refreshed | app/controller/ThirdPartyOAuthController.php:88-97 | a repeat sign-in sets provider username, email and avatar from the normalised info, the tokens and the expiry from the token data, keeping the user and the key |
| ThirdParty.NewBinding | app/controller/ThirdPartyOAuthController.php:106-118 | the new binding links the user to (provider, provider user id) |
| ThirdParty.Callback | app/controller/ThirdPartyOAuthController.php:40-144 | error, state and provider checks in order with no change; after them the one-time session keys are cleared; an existing binding is updated, otherwise a user is found or created and bound; the user is signed in and sent on |
| ThirdParty.RefreshKeepsBindingsValid | app/controller/ThirdPartyOAuthController.php:86-97 | updating a binding keeps one binding per (provider, provider user id) |
| ThirdParty.NewBindingKeepsValid | app/model/OAuthUserBinding.php:60-65 | a binding is added only for a key no binding has, so keys stay unique |
| UserModel.FirstWhere | app/controller/AuthController.php:55-57 | the matching user with the least id; none iff no user matches |
| UserModel.Create | app/controller/AuthController.php:147-154 | the new user gets the next id and nothing else changes |

## Left out

- The database layer is not modelled. That covers SQL collation (lookups are exact string equality), transactions, and database exceptions, so the `catch` branches that answer 500 are never taken.
- Concurrency is not modelled. Calls are sequential, so the find-then-delete of a code is treated as atomic.
- Library primitives are parameters: `random_bytes`, `base64_decode`, `password_verify`, `password_hash` and `json_decode`/`urldecode` of cookies.
- The two HTTP calls to a provider are supplied as their results, without the JSON or form-encoded parsing of the responses.
- Views, cookies and logging are not modelled: view rendering, the setting and clearing of cookies, and every write to the debug and error logs. The `oauth_request` cookie is supplied already decoded, as a flat list of name/value pairs; nested arrays in it are not modelled.
- Dates are integer seconds. `strtotime` and `date` formatting are not modelled.
- The routes and these controllers are not part of this model: admin, install and index. The client secret is compared with `hash_equals` against the stored value. `app/controller/AdminController.php:104` stores a `password_hash` of the secret, so a secret created there would never match. The model keeps the comparison as written.
- Authorization codes are keyed by their value. The source looks a code up by the pair (code, client_id) (`app/service/OAuthService.php:41-44`), so two clients holding the same code value cannot be represented; 64 random hex digits make such a clash negligible.
- ThirdParty.Callback: the two-argument calls `session('oauth_state', $state)`, `session('oauth_provider_id', …)` (`app/controller/ThirdPartyOAuthController.php:25-26`) and `session('user_id', …)`, `session('username', …)` (`:122-123`) are modelled as writes, as the code evidently intends. webman's `session($key, $default)` helper reads with a default when the key is a string. If that holds, login stores no state, every callback fails the state check, and no user is signed in. The framework is not part of this model.
- Exchanged provider tokens are not checked for expiry (`OAuthUserBinding.isTokenExpired` is never called).
- ProviderModel.ToArray: the created_at and updated_at timestamps that Eloquent also serialises (`app/model/OAuthProvider.php:32-33`) are not modelled, so the key set is the listed attributes only.
- ClientModel.ToArray: the created_at and updated_at timestamps (`app/model/OAuthClient.php:28-29`) are likewise not modelled.
- Provider columns used only for display (icon, button colour) are not modelled.
- ProviderModel.GetActive: rows with equal sort_order are kept in id order. The database does not promise this order.
- ThirdParty.Callback: when the `code` parameter is missing, the answer is a TypeError, and the session is shown with its one-time keys already cleared. Whether the framework persists that session after the error is not modelled.
- ThirdParty.Callback: an `oauth_request` cookie that decodes to a truthy scalar is not modelled. `http_build_query` would reject it.
- ThirdParty.CreateOrFindUser: an email or username that is not a string is compared by its PHP string form.
- Endpoints.AuthorizeSubmit: the client and redirect URI are not re-validated before a code is issued, as in the source. The model states this in Endpoints.SubmitDoesNotCheckClient; it does not add a check.
