/**
 * Local accounts: the login and registration decision chains and the
 * password change. password_verify is a supplied predicate and
 * password_hash a supplied value; the oauth_request cookie is supplied
 * already decoded (nothing when absent or not a JSON array).
 */
module AuthController {
  import opened Wrappers
  import opened PhpStrings
  import opened Json
  import opened Http
  import opened Tables
  import opened UserModel

  /** password_verify(password, hash). */
  type PasswordVerifier = (string, string) -> bool

  const EmptyCredentials: string := "用户名和密码不能为空"
  const BadCredentials: string := "用户名或密码错误"
  const AccountDisabled: string := "账号已被禁用"
  const IncompleteForm: string := "请填写完整信息"
  const BadUsername: string := "用户名格式不正确"
  const ShortPassword: string := "密码至少需要6个字符"
  const UsernameTaken: string := "用户名已被使用"
  const EmailTaken: string := "邮箱已被使用"
  const WrongOldPassword: string := "当前密码错误"
  const ShortNewPassword: string := "新密码至少需要6个字符"

  /** The tables, the session and the answer after a request. */
  datatype Outcome = Outcome(users: Users, session: Session, response: Response)

  /**
   * Where the browser goes after signing in: back to the authorization page
   * with the saved query when the cookie held a non-empty array, else the
   * profile page.
   */
  function ResumeTarget(pending: Option<seq<(string, string)>>): (body: map<string, Value>)
    ensures pending.Some? && pending.value != [] ==>
      && body.Keys == {"redirect", "clear_cookie"}
      && body["redirect"] == Str("/oauth/authorize?" + BuildQuery(pending.value))
    ensures (pending.None? || pending.value == []) ==> body == map["redirect" := Str("/profile")]
  {
    if pending.Some? && pending.value != [] then
      map["redirect" := Str("/oauth/authorize?" + BuildQuery(pending.value)), "clear_cookie" := Str("oauth_request")]
    else map["redirect" := Str("/profile")]
  }

  /** The resumed authorization URL carries every saved parameter back, in order. */
  lemma ResumeCarriesQuery(pending: seq<(string, string)>)
    requires pending != []
    ensures var url := ResumeTarget(Some(pending))["redirect"].s;
            var prefix := "/oauth/authorize?";
            && url[..|prefix|] == prefix
            && |Explode('&', url[|prefix|..])| == |pending|
            && forall i :: 0 <= i < |pending| ==>
                 SplitOnce('=', Explode('&', url[|prefix|..])[i]) == (UrlEncode(pending[i].0), Some(UrlEncode(pending[i].1)))
  {
    var prefix := "/oauth/authorize?";
    var url := ResumeTarget(Some(pending))["redirect"].s;
    assert url[|prefix|..] == BuildQuery(pending);
    QueryFields(pending);
  }

  // ------------------------------------------------------------------ login

  /** The account a login identifier names: the first user with that username or that email. */
  function LoginAccount(users: Users, identifier: string): Option<User> {
    FirstWhere(users, UsernameOrEmailIs(identifier))
  }

  /** The identifier names an account and the password verifies against its hash. */
  predicate CredentialsMatch(users: Users, identifier: string, password: string, verify: PasswordVerifier) {
    LoginAccount(users, identifier).Some? && verify(password, LoginAccount(users, identifier).value.passwordHash)
  }

  /**
   * loginSubmit: 400 before any lookup when a field is missing or falsy; the
   * same 401 for an unknown account and a wrong password; 403 for a disabled
   * account whose password verified; otherwise the session names the user
   * and the answer says where to go. Login never writes the users table.
   */
  function LoginSubmit(users: Users, session: Session, req: Request, verify: PasswordVerifier,
                       pending: Option<seq<(string, string)>>): (r: Outcome)
    ensures r.users == users
    ensures !Given(Post(req, "username")) || !Given(Post(req, "password")) ==>
      r == Outcome(users, session, JsonError(400, EmptyCredentials))
    ensures Given(Post(req, "username")) && Given(Post(req, "password")) ==>
      var id, pw := req.post["username"], req.post["password"];
      && (!CredentialsMatch(users, id, pw, verify) ==> r == Outcome(users, session, JsonError(401, BadCredentials)))
      && (CredentialsMatch(users, id, pw, verify) && LoginAccount(users, id).value.status != 1 ==>
            r == Outcome(users, session, JsonError(403, AccountDisabled)))
      && (CredentialsMatch(users, id, pw, verify) && LoginAccount(users, id).value.status == 1 ==>
            var u := LoginAccount(users, id).value;
            && r.session == session.(userId := Some(u.id), username := Some(u.username))
            && r.response == JsonResponse(200, ResumeTarget(pending)))
    ensures r.session != session ==> r.response.JsonResponse? && r.response.status == 200
  {
    var username, password := Post(req, "username"), Post(req, "password");
    if !Given(username) || !Given(password) then Outcome(users, session, JsonError(400, EmptyCredentials))
    else match LoginAccount(users, username.value)
      case None => Outcome(users, session, JsonError(401, BadCredentials))
      case Some(u) =>
        if !verify(password.value, u.passwordHash) then Outcome(users, session, JsonError(401, BadCredentials))
        else if u.status != 1 then Outcome(users, session, JsonError(403, AccountDisabled))
        else
          Outcome(users, session.(userId := Some(u.id), username := Some(u.username)),
                  JsonResponse(200, ResumeTarget(pending)))
  }

  // ------------------------------------------------------------------ registration

  predicate IsWordChar(c: char) {
    ('a' <= c <= 'z') || ('A' <= c <= 'Z') || ('0' <= c <= '9') || c == '_'
  }

  /** 3 to 20 characters from [a-zA-Z0-9_]. */
  predicate IsWordOf3To20(s: string) {
    3 <= |s| <= 20 && forall i :: 0 <= i < |s| ==> IsWordChar(s[i])
  }

  /**
   * preg_match('/^[a-zA-Z0-9_]{3,20}$/', s): without the D modifier `$` also
   * matches just before a final "\n", so one trailing newline is accepted.
   */
  predicate UsernamePatternMatches(s: string) {
    IsWordOf3To20(s) || (|s| > 0 && s[|s| - 1] == '\n' && IsWordOf3To20(s[..|s| - 1]))
  }

  /** The pattern as written lets "abc\n" through although "\n" is not a word character. */
  lemma PatternAcceptsTrailingNewline()
    ensures UsernamePatternMatches("abc\n") && !IsWordOf3To20("abc\n")
  {
    assert "abc\n"[..3] == "abc";
    assert !IsWordChar("abc\n"[3]);
  }

  /** The pattern never admits a space, a separator or anything outside ASCII words, except that final newline. */
  lemma PatternCharacters(s: string)
    requires UsernamePatternMatches(s)
    ensures 3 <= |s| <= 21
    ensures forall i :: 0 <= i < |s| ==> IsWordChar(s[i]) || (i == |s| - 1 && s[i] == '\n')
  {
    if !IsWordOf3To20(s) {
      var w := s[..|s| - 1];
      assert forall i :: 0 <= i < |s| - 1 ==> s[i] == w[i];
    }
  }

  /** The registration form passes the checks that come before any lookup. */
  predicate FormValid(req: Request) {
    && Given(Post(req, "username")) && Given(Post(req, "email")) && Given(Post(req, "password"))
    && UsernamePatternMatches(req.post["username"])
    && Utf8Length(req.post["password"]) >= 6
  }

  /** The form passes every check, lookups included. */
  predicate RegistrationAccepted(users: Users, req: Request) {
    && FormValid(req)
    && !Exists(users, UsernameIs(req.post["username"]))
    && !Exists(users, EmailIs(req.post["email"]))
  }

  /**
   * registerSubmit: the checks in their order (fields present, username
   * pattern, password of at least 6 bytes, username unused, email unused),
   * each with its own 400; on success a new enabled non-admin user with the
   * supplied password hash, signed in.
   */
  function RegisterSubmit(users: Users, session: Session, req: Request, passwordHash: string,
                          pending: Option<seq<(string, string)>>): (r: Outcome)
    ensures !Given(Post(req, "username")) || !Given(Post(req, "email")) || !Given(Post(req, "password")) ==>
      r == Outcome(users, session, JsonError(400, IncompleteForm))
    ensures Given(Post(req, "username")) && Given(Post(req, "email")) && Given(Post(req, "password")) ==>
      && (!UsernamePatternMatches(req.post["username"]) ==> r == Outcome(users, session, JsonError(400, BadUsername)))
      && (UsernamePatternMatches(req.post["username"]) && Utf8Length(req.post["password"]) < 6 ==>
            r == Outcome(users, session, JsonError(400, ShortPassword)))
    ensures FormValid(req) && Exists(users, UsernameIs(req.post["username"])) ==>
      r == Outcome(users, session, JsonError(400, UsernameTaken))
    ensures FormValid(req) && !Exists(users, UsernameIs(req.post["username"])) && Exists(users, EmailIs(req.post["email"])) ==>
      r == Outcome(users, session, JsonError(400, EmailTaken))
    ensures !RegistrationAccepted(users, req) ==> r.users == users && r.session == session
    ensures RegistrationAccepted(users, req) ==>
      var u := User(users.nextId, req.post["username"], req.post["email"], Post(req, "name"), passwordHash, 0, 1);
      && r.users == Users(users.rows[users.nextId := u], users.nextId + 1)
      && r.session == session.(userId := Some(u.id), username := Some(u.username))
      && r.response == JsonResponse(200, ResumeTarget(pending)["success" := Bool(true)])
  {
    var username, email, password := Post(req, "username"), Post(req, "email"), Post(req, "password");
    if !Given(username) || !Given(email) || !Given(password) then Outcome(users, session, JsonError(400, IncompleteForm))
    else if !UsernamePatternMatches(username.value) then Outcome(users, session, JsonError(400, BadUsername))
    else if Utf8Length(password.value) < 6 then Outcome(users, session, JsonError(400, ShortPassword))
    else if Exists(users, UsernameIs(username.value)) then Outcome(users, session, JsonError(400, UsernameTaken))
    else if Exists(users, EmailIs(email.value)) then Outcome(users, session, JsonError(400, EmailTaken))
    else
      var (users', u) := Create(users, username.value, email.value, Post(req, "name"), passwordHash, 0, 1);
      Outcome(users', session.(userId := Some(u.id), username := Some(u.username)),
              JsonResponse(200, ResumeTarget(pending)["success" := Bool(true)]))
  }

  /** Registration keeps usernames unique. */
  lemma RegistrationKeepsUsernamesUnique(users: Users, session: Session, req: Request, passwordHash: string,
                                         pending: Option<seq<(string, string)>>)
    requires Valid(users) && UsernamesUnique(users)
    ensures UsernamesUnique(RegisterSubmit(users, session, req, passwordHash, pending).users)
  {
    var r := RegisterSubmit(users, session, req, passwordHash, pending);
    if RegistrationAccepted(users, req) {
      var name := req.post["username"];
      forall k | k in users.rows ensures users.rows[k].username != name {
        assert !UsernameIs(name)(users.rows[k]);
      }
    }
  }

  /**
   * A newly registered user can log in with the username and the password
   * just chosen, as long as no earlier account uses that username as its
   * email (such an account would be found first).
   */
  lemma RegisteredUserCanLogIn(users: Users, session: Session, req: Request, passwordHash: string,
                               pending: Option<seq<(string, string)>>, verify: PasswordVerifier, login: Request)
    requires Valid(users)
    requires RegistrationAccepted(users, req)
    requires !Exists(users, EmailIs(req.post["username"]))
    requires verify(req.post["password"], passwordHash)
    requires Post(login, "username") == Some(req.post["username"]) && Post(login, "password") == Some(req.post["password"])
    ensures var registered := RegisterSubmit(users, session, req, passwordHash, pending).users;
            var r := LoginSubmit(registered, Session(None, None, None, None), login, verify, None);
            r.response == JsonResponse(200, map["redirect" := Str("/profile")]) && r.session.userId == Some(users.nextId)
  {
    var registered := RegisterSubmit(users, session, req, passwordHash, pending).users;
    var name := req.post["username"];
    var p := UsernameOrEmailIs(name);
    forall k | k in users.rows ensures !p(users.rows[k]) {
      assert !UsernameIs(name)(users.rows[k]) && !EmailIs(name)(users.rows[k]);
    }
    assert p(registered.rows[users.nextId]);
    FirstKeyComplete(registered.rows, p, registered.nextId, users.nextId);
  }

  // ------------------------------------------------------------------ password change

  /**
   * profilePassword: 401 without a session user, 404 when the user is gone,
   * 400 unless the old password verifies, then 400 unless the new one has at
   * least 6 bytes; otherwise only that user's password hash changes.
   */
  function ProfilePassword(users: Users, session: Session, req: Request, verify: PasswordVerifier,
                           newHash: string): (r: Outcome)
    ensures r.session == session
    ensures !(session.userId.Some? && session.userId.value != 0) ==> r == Outcome(users, session, JsonError(401, "unauthorized"))
    ensures session.userId.Some? && session.userId.value != 0 ==>
      var id := session.userId.value;
      && (Find(users, id).None? ==> r == Outcome(users, session, JsonError(404, "user not found")))
      && (Find(users, id).Some? && !verify(OrEmpty(Post(req, "old_password")), users.rows[id].passwordHash) ==>
            r == Outcome(users, session, JsonError(400, WrongOldPassword)))
      && (Find(users, id).Some? && verify(OrEmpty(Post(req, "old_password")), users.rows[id].passwordHash) ==>
            if Utf8Length(OrEmpty(Post(req, "new_password"))) < 6 then
              r == Outcome(users, session, JsonError(400, ShortNewPassword))
            else
              && r.users == users.(rows := users.rows[id := users.rows[id].(passwordHash := newHash)])
              && r.response == JsonResponse(200, map["success" := Bool(true)]))
  {
    if !(session.userId.Some? && session.userId.value != 0) then Outcome(users, session, JsonError(401, "unauthorized"))
    else match Find(users, session.userId.value)
      case None => Outcome(users, session, JsonError(404, "user not found"))
      case Some(u) =>
        if !verify(OrEmpty(Post(req, "old_password")), u.passwordHash) then
          Outcome(users, session, JsonError(400, WrongOldPassword))
        else if Utf8Length(OrEmpty(Post(req, "new_password"))) < 6 then
          Outcome(users, session, JsonError(400, ShortNewPassword))
        else
          Outcome(users.(rows := users.rows[session.userId.value := u.(passwordHash := newHash)]), session,
                  JsonResponse(200, map["success" := Bool(true)]))
  }

  /** A password change leaves every other user, the ids and the user's own identity as they were. */
  lemma PasswordChangeTouchesOnlyTheHash(users: Users, session: Session, req: Request, verify: PasswordVerifier,
                                         newHash: string)
    requires Valid(users)
    ensures var after := ProfilePassword(users, session, req, verify, newHash).users;
            && Valid(after) && after.nextId == users.nextId && after.rows.Keys == users.rows.Keys
            && forall k :: k in users.rows ==> after.rows[k].(passwordHash := users.rows[k].passwordHash) == users.rows[k]
  {
  }
}
