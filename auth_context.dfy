/** The client session: `user`, `token` and `loading` state, and the
    "token" / "user" entries of the browser's local storage. */
module AuthContext {
  import opened Common

  /** A user as the client holds it: field name to value (JSON values are
      abstracted to strings). */
  type UserRecord = map<string, string>

  /** The answer of the login or register call: the response body, or the
      failure with the server's `message`, if any. */
  datatype Answer = Answered(data: UserRecord) | Failed(serverMessage: Option<string>)

  datatype AuthResult = AuthResult(success: bool, message: Option<string>)

  const LoginFailed := "Login failed"
  const RegistrationFailed := "Registration failed"

  /** `const { token, ...user } = data`: the token, `undefined` when the body has none. */
  function TokenOf(data: UserRecord): Option<string>
  {
    if "token" in data then Some(data["token"]) else None
  }

  /** The body without its token. */
  function Stripped(data: UserRecord): (u: UserRecord)
    ensures "token" !in u
    ensures forall k :: k != "token" ==> (k in u <==> k in data) && (k in u ==> u[k] == data[k])
  {
    map k | k in data && k != "token" :: data[k]
  }

  /** `localStorage.setItem("token", newToken)` stores the string form, so an
      absent token is stored as "undefined". */
  function StoredForm(token: Option<string>): string
  {
    if token.Some? then token.value else "undefined"
  }

  /** `{ ...user, ...updatedData }`: the update's fields win, the others are
      kept; spreading a null user contributes nothing. */
  function Merge(user: Option<UserRecord>, updated: UserRecord): (m: UserRecord)
    ensures forall k :: k in updated ==> k in m && m[k] == updated[k]
    ensures forall k :: k !in updated ==> (k in m <==> user.Some? && k in user.value)
    ensures forall k :: k !in updated && k in m ==> m[k] == user.value[k]
  {
    (if user.Some? then user.value else map[]) + updated
  }

  class Session {
    var user: Option<UserRecord>
    var token: Option<string>
    var loading: bool
    /** localStorage "token" */
    var storedToken: Option<string>
    /** localStorage "user", as the record `JSON.stringify` wrote */
    var storedUser: Option<UserRecord>

    /** `isAuthenticated: !!token`. */
    predicate IsAuthenticated()
      reads this
    {
      token.Some? && token.value != ""
    }

    /** State and storage agree. */
    predicate Mirrored()
      reads this
    {
      token == storedToken && user == storedUser
    }

    /** The provider mounts: the token state is read from storage at once,
        the user starts null and `loading` true. */
    constructor (storedToken: Option<string>, storedUser: Option<UserRecord>)
      ensures this.storedToken == storedToken && this.storedUser == storedUser
      ensures token == storedToken && user == None && loading
    {
      this.storedToken := storedToken;
      this.storedUser := storedUser;
      token := storedToken;
      user := None;
      loading := true;
    }

    /** `initAuth`: restores token and user only when both keys are stored,
        and clears `loading` in every case. */
    method InitAuth()
      modifies this
      ensures storedToken == old(storedToken) && storedUser == old(storedUser)
      ensures !loading
      ensures Truthy(storedToken) && storedUser.Some? ==> token == storedToken && user == storedUser && Mirrored()
      ensures !(Truthy(storedToken) && storedUser.Some?) ==> token == old(token) && user == old(user)
    {
      var t := storedToken;
      var u := storedUser;
      if t.Some? && t.value != "" && u.Some? {
        token := t;
        user := u;
      }
      loading := false;
    }

    /** `login` and `register` share this shape: on an answer, persist and
        adopt the token and the token-stripped user; on a failure, change
        nothing and report the server's message or the fallback. */
    method SignIn(answer: Answer, fallback: string) returns (r: AuthResult)
      modifies this
      ensures loading == old(loading)
      ensures answer.Answered? ==>
                && r == AuthResult(true, None)
                && token == TokenOf(answer.data) && user == Some(Stripped(answer.data))
                && storedToken == Some(StoredForm(TokenOf(answer.data))) && storedUser == user
      ensures answer.Failed? ==>
                && r == AuthResult(false, Some(OrElse(answer.serverMessage, fallback)))
                && token == old(token) && user == old(user)
                && storedToken == old(storedToken) && storedUser == old(storedUser)
    {
      match answer
      case Failed(m) =>
        return AuthResult(false, Some(OrElse(m, fallback)));
      case Answered(data) =>
        var newToken := TokenOf(data);
        var userData := Stripped(data);
        storedToken := Some(StoredForm(newToken));
        storedUser := Some(userData);
        token := newToken;
        user := Some(userData);
        r := AuthResult(true, None);
    }

    method Login(answer: Answer) returns (r: AuthResult)
      modifies this
      ensures loading == old(loading)
      ensures answer.Answered? ==> r.success && token == TokenOf(answer.data) && user == Some(Stripped(answer.data))
                                   && storedUser == user && storedToken == Some(StoredForm(token))
      ensures answer.Failed? ==> r == AuthResult(false, Some(OrElse(answer.serverMessage, LoginFailed)))
                                 && token == old(token) && user == old(user)
                                 && storedToken == old(storedToken) && storedUser == old(storedUser)
    {
      r := SignIn(answer, LoginFailed);
    }

    method Register(answer: Answer) returns (r: AuthResult)
      modifies this
      ensures loading == old(loading)
      ensures answer.Answered? ==> r.success && token == TokenOf(answer.data) && user == Some(Stripped(answer.data))
                                   && storedUser == user && storedToken == Some(StoredForm(token))
      ensures answer.Failed? ==> r == AuthResult(false, Some(OrElse(answer.serverMessage, RegistrationFailed)))
                                 && token == old(token) && user == old(user)
                                 && storedToken == old(storedToken) && storedUser == old(storedUser)
    {
      r := SignIn(answer, RegistrationFailed);
    }

    /** `logout`: both keys removed, token and user null. */
    method Logout()
      modifies this
      ensures token == None && user == None && storedToken == None && storedUser == None
      ensures loading == old(loading) && !IsAuthenticated() && Mirrored()
    {
      storedToken := None;
      storedUser := None;
      token := None;
      user := None;
    }

    /** `updateUser`: merge and persist the merged user; the token is untouched. */
    method UpdateUser(updated: UserRecord)
      modifies this
      ensures user == Some(Merge(old(user), updated)) && storedUser == user
      ensures token == old(token) && storedToken == old(storedToken) && loading == old(loading)
      ensures old(Mirrored()) ==> Mirrored()
    {
      var merged := Merge(user, updated);
      user := Some(merged);
      storedUser := Some(merged);
    }
  }

  /** A login answer that carries a token leaves a session that is
      authenticated exactly when the token is non-empty, whose user has no
      token field, and whose storage mirrors it. */
  lemma SignedInState(data: UserRecord)
    requires "token" in data
    ensures TokenOf(data) == Some(data["token"])
    ensures StoredForm(TokenOf(data)) == data["token"]
    ensures "token" !in Stripped(data)
    ensures Stripped(data) + map["token" := data["token"]] == data
  {
    var s := Stripped(data);
    assert forall k :: k in s + map["token" := data["token"]] <==> k in data;
  }

  /** Mounting the provider: the token comes from storage on its own, so a
      stored token without a stored user is authenticated with a null user;
      the user is restored only when both keys are stored. */
  method MountProvider(storedToken: Option<string>, storedUser: Option<UserRecord>) returns (s: Session)
    ensures !s.loading
    ensures s.IsAuthenticated() <==> Truthy(storedToken)
    ensures s.user == if Truthy(storedToken) && storedUser.Some? then storedUser else None
    ensures s.storedToken == storedToken && s.storedUser == storedUser
  {
    s := new Session(storedToken, storedUser);
    s.InitAuth();
  }

  /** Merging is idempotent and an empty update keeps the user. */
  lemma MergeSpec(user: UserRecord, updated: UserRecord)
    ensures Merge(Some(Merge(Some(user), updated)), updated) == Merge(Some(user), updated)
    ensures Merge(Some(user), map[]) == user
  {
    assert user + map[] == user;
  }
}
