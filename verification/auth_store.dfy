/** The persisted client session: access token, refresh token and the
    signed-in user. Persistence to local storage is outside the model. */
module AuthStore {
  import opened Wrappers

  /** `displayName` may be absent or null; both read as `None`. */
  datatype User = User(id: string, email: string, displayName: Option<string>)

  datatype AuthState = AuthState(token: Option<string>, refreshToken: Option<string>, user: Option<User>)

  const Initial: AuthState := AuthState(None, None, None)

  predicate SignedIn(s: AuthState) {
    s.token.Some? && s.refreshToken.Some? && s.user.Some?
  }

  /** `setAuth(token, refreshToken, user)`: all three fields at once. */
  function SetAuth(s: AuthState, token: string, refreshToken: string, user: User): (r: AuthState)
    ensures SignedIn(r)
    ensures r.token == Some(token) && r.refreshToken == Some(refreshToken) && r.user == Some(user)
  {
    AuthState(Some(token), Some(refreshToken), Some(user))
  }

  /** `setToken(token)`: a refreshed access token; the rest is kept. */
  function SetToken(s: AuthState, token: string): (r: AuthState)
    ensures r.token == Some(token)
    ensures r.refreshToken == s.refreshToken && r.user == s.user
  {
    s.(token := Some(token))
  }

  /** `logout()`: everything cleared. */
  function Logout(s: AuthState): (r: AuthState)
    ensures r.token.None? && r.refreshToken.None? && r.user.None?
  {
    Initial
  }

  /** Signing out is idempotent and returns to the initial state, whatever
      came before; signing in does not depend on the previous state. */
  lemma {:induction false} LogoutResets(s: AuthState, token: string, refreshToken: string, user: User)
    ensures Logout(Logout(s)) == Logout(s) == Initial
    ensures Logout(SetAuth(s, token, refreshToken, user)) == Initial
    ensures SetAuth(s, token, refreshToken, user) == SetAuth(Initial, token, refreshToken, user)
  {
  }

  /** A refreshed token keeps a signed-in session signed in, and after a
      logout it gives a token without a user. */
  lemma {:induction false} RefreshKeepsSession(s: AuthState, token: string)
    ensures SignedIn(s) ==> SignedIn(SetToken(s, token))
    ensures var r := SetToken(Logout(s), token); r.token == Some(token) && r.user.None? && !SignedIn(r)
    ensures SetToken(SetToken(s, token), token) == SetToken(s, token)
  {
  }
}
