/** The users table, as the OAuth engine and the login, registration and third-party flows use it. */
module UserModel {
  import opened Wrappers
  import opened Tables

  datatype User = User(
    id: nat,
    username: string,
    email: string,
    name: Option<string>,
    passwordHash: string,
    isAdmin: int,
    status: int)

  /** The rows by id and the next auto-increment id. */
  datatype Users = Users(rows: map<nat, User>, nextId: nat)

  ghost predicate Valid(users: Users) {
    && IdsBelow(users.rows, users.nextId)
    && forall k :: k in users.rows ==> users.rows[k].id == k
  }

  /** User::find(id). */
  function Find(users: Users, id: nat): Option<User> {
    if id in users.rows then Some(users.rows[id]) else None
  }

  function UsernameIs(name: string): User -> bool {
    (u: User) => u.username == name
  }

  function EmailIs(email: string): User -> bool {
    (u: User) => u.email == email
  }

  /** `where('username', x)->orWhere('email', x)`. */
  function UsernameOrEmailIs(x: string): User -> bool {
    (u: User) => u.username == x || u.email == x
  }

  /** `where(...)->first()`: the matching user with the least id. */
  function FirstWhere(users: Users, p: User -> bool): (r: Option<User>)
    ensures r.Some? ==> p(r.value) && r.value in users.rows.Values
    ensures IdsBelow(users.rows, users.nextId) ==> (r.None? <==> !Exists(users, p))
    ensures Valid(users) && r.Some? ==>
      && r.value.id in users.rows && users.rows[r.value.id] == r.value
      && forall k :: k in users.rows && k < r.value.id ==> !p(users.rows[k])
  {
    match FirstKey(users.rows, p, 0, users.nextId)
    case None => None
    case Some(k) => Some(users.rows[k])
  }

  /** `where(...)->exists()`. */
  predicate Exists(users: Users, p: User -> bool) {
    exists k :: k in users.rows && p(users.rows[k])
  }

  /** No two users share a username. */
  ghost predicate UsernamesUnique(users: Users) {
    forall j, k :: j in users.rows && k in users.rows && j != k ==> users.rows[j].username != users.rows[k].username
  }

  /** User::create: the new row gets the next id. */
  function Create(users: Users, username: string, email: string, name: Option<string>,
                  passwordHash: string, isAdmin: int, status: int): (r: (Users, User))
    ensures r.1 == User(users.nextId, username, email, name, passwordHash, isAdmin, status)
    ensures users.nextId !in users.rows || !Valid(users)
    ensures r.0 == Users(users.rows[users.nextId := r.1], users.nextId + 1)
    ensures Valid(users) ==> Valid(r.0)
  {
    var u := User(users.nextId, username, email, name, passwordHash, isAdmin, status);
    (Users(users.rows[users.nextId := u], users.nextId + 1), u)
  }
}
