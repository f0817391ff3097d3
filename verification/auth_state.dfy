/**
  Vocabulary shared by the two authentication services: the service state
  (the `isAuthenticated` signal and the `sess_id` entry of local storage) and
  what the identity provider's session fetch can produce.
 */
module AuthState {
  import opened Common

  /** A freshly generated session id (`uuidv4()`), which is never empty. */
  type Uuid = s: string | s != "" witness "0"

  datatype State = State(isAuthenticated: bool, sessId: Option<string>)

  /** The session's tokens; `accessToken` is the string form of the access token, if present. */
  datatype Tokens = Tokens(accessToken: Option<string>)

  /** What `fetchAuthSession()` yields: a session, whose `tokens` may be undefined, or an error. */
  datatype Fetch = Fetched(tokens: Option<Tokens>) | FetchFailed(error: JsError)

  /**
    `getSessionId()`, identical in both services: the stored id, or `''` when
    none (or an empty one) is stored.
   */
  function GetSessionId(s: State): (r: string)
    ensures r == "" <==> s.sessId.None? || s.sessId == Some("")
    ensures s.sessId.Some? ==> r == s.sessId.value
  {
    s.sessId.GetOr("")
  }

  /** An awaited service call: the state afterwards and what the call returned or threw. */
  datatype Transition<+T> = Transition(state: State, result: Outcome<T>)

  /** The state after `isLoggedIn()` and the boolean it resolves to (it never throws). */
  datatype Checked = Checked(state: State, loggedIn: bool)
}
