/**
  Session bookkeeping of the authentication service in
  `auth/services/auth.service.ts`. Calls into the identity provider
  (`signIn`, `signOut`, `fetchAuthSession`) are inputs: the outcome they
  produced. `uuidv4()` is the `newId` input, and router navigation is recorded
  as the list of paths navigated to.
 */
module AuthService {
  import opened Common
  import opened AuthState

  const LoginPath := "/login"

  /** What `logout()` did: the transition plus the paths it navigated to. */
  datatype LogoutStep = LogoutStep(state: State, result: Outcome<()>, navigations: seq<string>)

  /** `setSessionId()`: stores a fresh id, replacing any previous one. */
  function SetSessionId(s: State, newId: Uuid): (r: State)
    ensures GetSessionId(r) == newId
    ensures r.isAuthenticated == s.isAuthenticated
  {
    s.(sessId := Some(newId))
  }

  /** `removeSessionId()`: forgets the stored id. */
  function RemoveSessionId(s: State): (r: State)
    ensures GetSessionId(r) == "" && r.sessId.None?
    ensures r.isAuthenticated == s.isAuthenticated
  {
    s.(sessId := None)
  }

  /**
    `login(email, password)`: on success the user is authenticated and gets a
    fresh session id; on failure the flag is cleared, the stored id is kept and
    the same error is thrown again.
   */
  function Login<U>(s: State, signIn: Outcome<U>, newId: Uuid): (r: Transition<U>)
    ensures r.result == signIn
    ensures signIn.Returned? ==> r.state.isAuthenticated && GetSessionId(r.state) == newId
    ensures signIn.Threw? ==> !r.state.isAuthenticated && r.state.sessId == s.sessId
  {
    match signIn
    case Returned(_) => Transition(SetSessionId(s.(isAuthenticated := true), newId), signIn)
    case Threw(_) => Transition(s.(isAuthenticated := false), signIn)
  }

  /**
    `logout()`: on success the flag is cleared, the session id removed and the
    router sent to `/login`; on failure nothing changes and the error is thrown
    again.
   */
  function Logout(s: State, signOut: Outcome<()>): (r: LogoutStep)
    ensures r.result == signOut
    ensures signOut.Returned? ==>
              !r.state.isAuthenticated && GetSessionId(r.state) == "" && r.navigations == [LoginPath]
    ensures signOut.Threw? ==> r.state == s && r.navigations == []
  {
    match signOut
    case Returned(_) => LogoutStep(RemoveSessionId(s.(isAuthenticated := false)), signOut, [LoginPath])
    case Threw(_) => LogoutStep(s, signOut, [])
  }

  /**
    `isLoggedIn()`: when the session can be fetched, the user is authenticated
    exactly when the session has tokens, and a session id is created if none
    (or an empty one) is stored, authenticated or not. When the fetch fails it
    resolves to false, clears the flag and creates no session id.
   */
  function IsLoggedIn(s: State, fetch: Fetch, newId: Uuid): (r: Checked)
    ensures r.state.isAuthenticated == r.loggedIn
    ensures fetch.Fetched? ==> r.loggedIn == fetch.tokens.Some? && GetSessionId(r.state) != ""
    ensures fetch.Fetched? && GetSessionId(s) != "" ==> r.state.sessId == s.sessId
    ensures fetch.FetchFailed? ==> !r.loggedIn && r.state.sessId == s.sessId
  {
    match fetch
    case Fetched(tokens) =>
      var authenticated := tokens.Some?;
      var withId := if GetSessionId(s) == "" then SetSessionId(s, newId) else s;
      Checked(withId.(isAuthenticated := authenticated), authenticated)
    case FetchFailed(_) =>
      Checked(s.(isAuthenticated := false), false)
  }

  /**
    `getAccessToken()`: the access token's string form, or null. A session
    without tokens gives null; so does a failed fetch, and so does a token set
    without an access token (reading it throws, and the error is caught).
   */
  function GetAccessToken(fetch: Fetch): (r: Option<string>)
    ensures r.Some? <==> fetch.Fetched? && fetch.tokens.Some? && fetch.tokens.value.accessToken.Some?
    ensures r.Some? ==> r.value == fetch.tokens.value.accessToken.value
  {
    match fetch
    case Fetched(Some(Tokens(Some(token)))) => Some(token)
    case _ => None
  }

  /** The constructor: the flag starts false and `isLoggedIn()` runs once on whatever storage holds. */
  function Construct(stored: Option<string>, fetch: Fetch, newId: Uuid): (r: State)
    ensures fetch.Fetched? ==> r.isAuthenticated == fetch.tokens.Some? && GetSessionId(r) != ""
    ensures fetch.Fetched? && stored.Some? && stored.value != "" ==> r.sessId == stored
    ensures fetch.FetchFailed? ==> r == State(false, stored)
  {
    IsLoggedIn(State(false, stored), fetch, newId).state
  }

  /**
    A token is handed out only for a session that `isLoggedIn()` reports as
    logged in: for the same fetch, a token means the check answers true (and
    the reverse fails only when the token set has no access token).
   */
  lemma TokenImpliesLoggedIn(s: State, fetch: Fetch, newId: Uuid)
    ensures GetAccessToken(fetch).Some? ==> IsLoggedIn(s, fetch, newId).loggedIn
    ensures IsLoggedIn(s, fetch, newId).loggedIn ==>
              (GetAccessToken(fetch).Some? <==> fetch.tokens.value.accessToken.Some?)
    ensures !IsLoggedIn(s, fetch, newId).loggedIn ==> GetAccessToken(fetch).None?
  {
  }

  /** A second `isLoggedIn()` with the same session changes nothing and gives the same answer. */
  lemma IsLoggedInIdempotent(s: State, fetch: Fetch, newId1: Uuid, newId2: Uuid)
    ensures var first := IsLoggedIn(s, fetch, newId1);
            IsLoggedIn(first.state, fetch, newId2) == first
  {
  }

  /** The session id lives from a successful login until a successful logout. */
  lemma SessionIdLifecycle<U>(s: State, user: U, newId: Uuid, fetch: Fetch, newId2: Uuid)
    ensures var loggedIn := Login(s, Returned(user), newId).state;
            && GetSessionId(IsLoggedIn(loggedIn, fetch, newId2).state) == newId
            && GetSessionId(Logout(loggedIn, Returned(())).state) == ""
            && Logout(loggedIn, Threw(JsError(""))).state == loggedIn
  {
  }

  /** A failed login leaves a previous session id in place. */
  lemma FailedLoginKeepsSessionId(s: State, e: JsError, newId: Uuid)
    ensures GetSessionId(Login<()>(s, Threw(e), newId).state) == GetSessionId(s)
  {
  }
}
