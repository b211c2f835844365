/**
  `POST /api/auth/login`: look the user up by email, compare the password
  with the stored hash, and sign a token over the user's identity.
 */
module LoginRoute {
  import opened Wrappers
  import opened Documents
  import opened Http
  import opened UserModel
  import opened Store

  /** The claims the token is signed over. */
  datatype Claims = Claims(userId: Id, email: string, role: Role)

  /** jsonwebtoken's `sign(claims, secret, { expiresIn })`, as an uninterpreted function. */
  type Signer = (Claims, string, string) -> string

  /** The token lifetime passed to `sign`. */
  const TokenExpiry: string := "7d"

  /** What the client learns about the user: everything but the password. */
  datatype UserView = UserView(id: Id, name: string, email: string, role: Role)

  /** The body of a successful login. */
  datatype Session = Session(token: string, user: UserView)

  /** The one reply for an unknown email and for a wrong password alike. */
  const InvalidCredentials: Reply<Session> := Reply(401, Error("Invalid credentials"))

  /** The reply for any thrown error. */
  const LoginFailed: Reply<Session> := Reply(500, Error("Login failed"))

  function ClaimsOf(u: User): Claims
  {
    Claims(u.id, u.email, u.role)
  }

  function ViewOf(u: User): UserView
  {
    UserView(u.id, u.name, u.email, u.role)
  }

  /**
    The login handler. `connected` is false when the store connection or the
    request parsing throws; `secret` is the `JWT_SECRET` setting, and `sign`
    throws when it is missing or empty.
   */
  function Login(connected: bool, users: seq<User>, email: string, password: string,
                 compare: Compare, secret: Option<string>, sign: Signer): (r: Reply<Session>)
    ensures !connected ==> r == LoginFailed
    ensures connected && !EmailTaken(users, email) ==> r == InvalidCredentials
    ensures (connected && FindUserByEmail(users, email).Some? &&
             !compare(password, FindUserByEmail(users, email).value.password)) ==> r == InvalidCredentials
    ensures (connected && FindUserByEmail(users, email).Some? &&
             compare(password, FindUserByEmail(users, email).value.password) &&
             !(secret.Some? && secret.value != "")) ==> r == LoginFailed
    ensures r.status == 200 <==>
              && connected
              && FindUserByEmail(users, email).Some?
              && compare(password, FindUserByEmail(users, email).value.password)
              && secret.Some? && secret.value != ""
    ensures r.status == 200 ==>
              var u := FindUserByEmail(users, email).value;
              r.body == Json(Session(sign(Claims(u.id, u.email, u.role), secret.value, TokenExpiry),
                                     UserView(u.id, u.name, u.email, u.role)))
    ensures r.status in {200, 401, 500}
  {
    if !connected then LoginFailed
    else
      match FindUserByEmail(users, email)
      case None => InvalidCredentials
      case Some(u) =>
        if !compare(password, u.password) then InvalidCredentials
        else if secret.None? || secret.value == "" then LoginFailed
        else Reply(200, Json(Session(sign(ClaimsOf(u), secret.value, TokenExpiry), ViewOf(u))))
  }

  /**
    A failed credential check is one reply whatever the cause: an unknown
    email and a wrong password cannot be told apart.
   */
  lemma FailuresIndistinguishable(users1: seq<User>, email1: string, password1: string,
                                  users2: seq<User>, email2: string, password2: string,
                                  compare: Compare, secret: Option<string>, sign: Signer)
    requires !EmailTaken(users1, email1)
    requires FindUserByEmail(users2, email2).Some?
    requires !compare(password2, FindUserByEmail(users2, email2).value.password)
    ensures Login(true, users1, email1, password1, compare, secret, sign)
         == Login(true, users2, email2, password2, compare, secret, sign)
  {
  }

  /** The password is compared only once the user is found: for an unknown email `compare` does not matter. */
  lemma CompareOnlyAfterLookup(users: seq<User>, email: string, password: string,
                               compare1: Compare, compare2: Compare, secret: Option<string>, sign: Signer)
    requires !EmailTaken(users, email)
    ensures Login(true, users, email, password, compare1, secret, sign)
         == Login(true, users, email, password, compare2, secret, sign)
  {
  }

  /**
    A user stored under a hash of password `p` logs in with `p` when email
    addresses are unique and a secret is set, and the token carries that
    user's identity and role.
   */
  lemma {:induction false} StoredHashLogsIn(users: seq<User>, nextId: nat, u: User, p: string, hash: Hash,
                                            compare: Compare, secret: string, sign: Signer)
    requires UsersConsistent(users, nextId)
    requires Bcrypt(hash, compare)
    requires u in users && u.password == hash(p)
    requires secret != ""
    ensures Login(true, users, u.email, p, compare, Some(secret), sign)
         == Reply(200, Json(Session(sign(Claims(u.id, u.email, u.role), secret, TokenExpiry), ViewOf(u))))
  {
    UniqueEmailFound(users, nextId, u);
  }

  /** The first user of the table logs in with any password that matches its stored hash. */
  lemma FirstUserLogsIn(users: seq<User>, password: string, compare: Compare, secret: string, sign: Signer)
    requires users != [] && compare(password, users[0].password)
    requires secret != ""
    ensures Login(true, users, users[0].email, password, compare, Some(secret), sign).status == 200
  {
  }

  /** With unique emails, looking up a stored user's email finds that user. */
  lemma {:induction false} UniqueEmailFound(users: seq<User>, nextId: nat, u: User)
    requires UsersConsistent(users, nextId)
    requires u in users
    ensures FindUserByEmail(users, u.email) == Some(u)
  {
    if users[0] != u {
      assert UsersConsistent(users[1..], nextId) by {
        forall i, j | 0 <= i < j < |users[1..]|
          ensures users[1..][i].email != users[1..][j].email
        {
          assert users[1..][i] == users[i + 1] && users[1..][j] == users[j + 1];
        }
      }
      var k :| 0 <= k < |users| && users[k] == u;
      assert users[0].email != u.email;
      UniqueEmailFound(users[1..], nextId, u);
    }
  }
}
