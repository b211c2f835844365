/**
  The client's authentication store (`useAuth`): the current token and user,
  set at login, cleared at logout, and turned into an Authorization header.
 */
module ClientAuth {
  import opened Wrappers

  /** The user the client keeps, as the login reply describes it. */
  datatype User = User(id: string, name: string, email: string, role: string)

  /** The headers object `{ Authorization: ... }`. */
  datatype AuthHeader = AuthHeader(authorization: string)

  /** JavaScript truthiness of the stored token: null and "" both count as no token. */
  predicate HasToken(token: Option<string>)
  {
    token.Some? && token.value != ""
  }

  class AuthStore {
    var token: Option<string>
    var user: Option<User>

    /** The state a fresh client starts in. */
    constructor ()
      ensures token == None && user == None
    {
      token, user := None, None;
    }

    /** `setAuth(token, user)`: both fields take the given values, whatever they held. */
    method SetAuth(t: string, u: User)
      modifies this
      ensures token == Some(t) && user == Some(u)
    {
      token, user := Some(t), Some(u);
    }

    /** `logout()`: both fields are cleared. */
    method Logout()
      modifies this
      ensures token == None && user == None
    {
      token, user := None, None;
    }

    /** `getAuthHeader()`: a bearer header exactly when the token is truthy. */
    function GetAuthHeader(): (h: Option<AuthHeader>)
      reads this
      ensures h.Some? <==> HasToken(token)
      ensures h.Some? ==> h.value.authorization == "Bearer " + token.value
    {
      if HasToken(token) then Some(AuthHeader("Bearer " + token.value)) else None
    }
  }

  /**
    A client session: log in with token `t`, ask for the header, log out
    twice. The header carries `t` while logged in (when `t` is not empty) and
    is gone after logout; a second logout leaves the same state as the first.
   */
  method Session(t: string, u: User) returns (during: Option<AuthHeader>, after: Option<AuthHeader>, again: Option<AuthHeader>)
    ensures t != "" ==> during == Some(AuthHeader("Bearer " + t))
    ensures t == "" ==> during == None
    ensures after == None && again == None
  {
    var store := new AuthStore();
    store.SetAuth(t, u);
    during := store.GetAuthHeader();
    store.Logout();
    after := store.GetAuthHeader();
    store.Logout();
    again := store.GetAuthHeader();
  }
}
