/**
  Session bookkeeping of the second authentication service, in
  `auth/services/auth.services.ts` (the one the header, the register page and
  the HTTP interceptor import). It keeps the same two state variables but
  differs from `auth.service.ts`: `logout` does not navigate, and
  `isLoggedIn` never touches the session id.
 */
module AuthServices {
  import opened Common
  import opened AuthState
  import AuthService

  /**
    `login(email, password)`: on success the flag is set and a fresh `sess_id`
    written; on failure the flag is cleared, the stored id kept, and the error
    thrown again.
   */
  function Login<U>(s: State, signIn: Outcome<U>, newId: Uuid): (r: Transition<U>)
    ensures r.result == signIn
    ensures signIn.Returned? ==> r.state.isAuthenticated && GetSessionId(r.state) == newId
    ensures signIn.Threw? ==> !r.state.isAuthenticated && r.state.sessId == s.sessId
  {
    match signIn
    case Returned(_) => Transition(State(true, Some(newId)), signIn)
    case Threw(_) => Transition(s.(isAuthenticated := false), signIn)
  }

  /**
    `logout()`: on success the flag is cleared and `sess_id` removed, with no
    navigation; on failure both stay as they were and the error is thrown again.
   */
  function Logout(s: State, signOut: Outcome<()>): (r: Transition<()>)
    ensures r.result == signOut
    ensures signOut.Returned? ==> !r.state.isAuthenticated && GetSessionId(r.state) == ""
    ensures signOut.Threw? ==> r.state == s
  {
    match signOut
    case Returned(_) => Transition(State(false, None), signOut)
    case Threw(_) => Transition(s, signOut)
  }

  /**
    `isLoggedIn()`: the flag becomes "the session has tokens" and is returned;
    a failed fetch resolves to false and clears the flag. `sess_id` is never
    read or written.
   */
  function IsLoggedIn(s: State, fetch: Fetch): (r: Checked)
    ensures r.state.isAuthenticated == r.loggedIn
    ensures r.state.sessId == s.sessId
    ensures r.loggedIn <==> fetch.Fetched? && fetch.tokens.Some?
  {
    match fetch
    case Fetched(tokens) => Checked(s.(isAuthenticated := tokens.Some?), tokens.Some?)
    case FetchFailed(_) => Checked(s.(isAuthenticated := false), false)
  }

  // ---------------------------------------------------------------------------
  // How the two services compare

  /** Both services agree on `login`: same state, same result. */
  lemma LoginAgrees<U>(s: State, signIn: Outcome<U>, newId: Uuid)
    ensures Login(s, signIn, newId) == AuthService.Login(s, signIn, newId)
  {
  }

  /** Both services leave the same state after `logout`; only `auth.service.ts` navigates. */
  lemma LogoutDiffersOnlyInNavigation(s: State, signOut: Outcome<()>)
    ensures Logout(s, signOut).state == AuthService.Logout(s, signOut).state
    ensures Logout(s, signOut).result == AuthService.Logout(s, signOut).result
    ensures signOut.Returned? ==> AuthService.Logout(s, signOut).navigations == [AuthService.LoginPath]
  {
  }

  /**
    Both `isLoggedIn` variants give the same answer and the same flag; they
    differ only when no session id is stored and the fetch succeeds, where
    `auth.service.ts` creates one and this service does not.
   */
  lemma IsLoggedInDiffersOnlyInSessionId(s: State, fetch: Fetch, newId: Uuid)
    ensures var mine := IsLoggedIn(s, fetch);
            var other := AuthService.IsLoggedIn(s, fetch, newId);
            && mine.loggedIn == other.loggedIn
            && mine.state.isAuthenticated == other.state.isAuthenticated
            && (mine.state.sessId == other.state.sessId <==> !(fetch.Fetched? && GetSessionId(s) == ""))
  {
  }
}
