# Chat client core, modelled in Dafny

This project models the self-contained logic of a small Angular chat client that signs users in through a managed identity provider and talks to its backend over a WebSocket:

- the **idle watchdog** (`InactivityService`): activity pulses, an idle timer, a warning countdown and a forced logout;
- the **WebSocket session holder** (`WebSocketService`): opening a socket when needed, relaying inbound messages, sending and closing;
- the two **type guards** that sort inbound frames into chat answers and connection-info frames;
- the **`newlineformat` pipe** that turns line feeds into `<br/>`;
- the **session bookkeeping** of the two authentication services (`auth.service.ts` and `auth.services.ts`);
- the **HTTP auth interceptor's** decision to add a bearer header;
- the **register form's** password-match validator and its submit handler.

Timers, DOM listeners, the identity provider, `localStorage`, `uuid` and the router are not executed. They become explicit inputs: events, call outcomes, a fresh-id parameter and a list of navigations. With those inputs, every operation is a pure function. Each source file has one module; `Common`, `Json` and `AuthState` hold shared vocabulary:

| module | file |
|---|---|
| `Common` | outcome and option types shared by all modules |
| `Json` | JavaScript values: truthiness, `typeof`, property access, `&&` |
| `ChatModel` | `src/app/pages/chat/chatmodel.ts` |
| `NewlineFormat` | `src/app/shared/pipes/newlineformat-pipe.ts` |
| `Inactivity` | `src/app/shared/services/inactivity.service.ts` |
| `WebSocketSession` | `src/app/shared/services/websocket.service.ts` |
| `AuthState` | the state and session shapes used by both auth services |
| `AuthService` | `src/app/auth/services/auth.service.ts` |
| `AuthServices` | `src/app/auth/services/auth.services.ts`, plus lemmas comparing it with `AuthService` |
| `AuthInterceptor` | `src/app/shared/interceptors/auth.interceptor.ts` |
| `Register` | `src/app/auth/pages/register/register.ts` |

**Idle watchdog events.** The watchdog's events are:

- `RawInput`: a DOM event that passed the throttle. It is heard only while the listener is subscribed.
- `UserIsActive`: a pulse on `userIsActive`.
- `IdleTimerFired`: the pending idle timer expires.
- `Tick(i)`: countdown `i` emits.
- `Stop`: a call to `stopMonitoring()`.

Each countdown in the state is paired with its cancel-on-activity subscription. This is why the invariant "at most one countdown" is a theorem and not a consequence of the state's shape.

**Configuration.** The idle thresholds (idle minutes, warning seconds) and the WebSocket URL are parameters; the environment files do not define them. The API base URL is a parameter too, although `src/environments/environment.ts:4` and `src/environments/environment.dev.ts:4` set it.

**Behaviour worth noting.** The code does the following:

- `connect` reuses the current socket unless the transport reports it `closed`. It does not test whether the socket is open.
- `WebSocketService` sends no keep-alive ping.
- `close` completes the socket but does not clear it, so `sendMessage` afterwards still calls `next` on the completed socket (and logs nothing).
- `sendMessage` tests only that a socket object exists.
- `stopMonitoring` does not cancel a countdown that is already running, so that countdown can still emit `logout` after the stop.

## Model

| member | source | states |
|---|---|---|
| `Inactivity.Pulse` | src/app/shared/services/inactivity.service.ts:38-43 | an activity pulse emits warning 0 and replaces any pending idle timer with one of the configured delay, and every live countdown is cancelled; once the pipeline is unsubscribed a pulse emits nothing and arms nothing |
| `Inactivity.PulseArmsIdleDelay` | src/app/shared/services/inactivity.service.ts:38-42 | the idle delay armed by a pulse is `minutes*60*1000 - W*1000` ms, the unit conversion of the two configured thresholds |
| `Inactivity.LogoutAtInactivityTimeout` | src/app/shared/services/inactivity.service.ts:10-55 | the logout comes the idle delay plus the last tick's seconds after the last activity, which is exactly the configured inactivity timeout when the warning length is not negative and later than it when negative |
| `Inactivity.RawInputPulsesWhileListening` | src/app/shared/services/inactivity.service.ts:25-33 | a throttled DOM event has exactly the effect of an activity pulse while the listener is subscribed, and none after it is unsubscribed |
| `Inactivity.IdleTimerArmedOnlyByActivity` | src/app/shared/services/inactivity.service.ts:36-44 | only an activity pulse arms an idle timer: every other event keeps the pending one or drops it |
| `Inactivity.StartMonitoring` | src/app/shared/services/inactivity.service.ts:68-70 | starting the watchdog clears countdowns and, with a live pipeline, shows warning 0 and arms the idle timer |
| `Inactivity.StartIsOnePulse` | src/app/shared/services/inactivity.service.ts:68-70 | `startMonitoring` is exactly one `userIsActive` pulse and a one-event run |
| `Inactivity.StopMonitoring` | src/app/shared/services/inactivity.service.ts:72-76 | stopping unsubscribes listener and pipeline, drops the pending idle timer, emits warning 0 and leaves running countdowns untouched |
| `Inactivity.FireIdleTimer` | src/app/shared/services/inactivity.service.ts:46-49 | an expiring idle timer shows warning W and starts a new countdown at tick 0, leaving the DOM listener and the activity pipeline as they were; without a pending timer nothing happens |
| `Inactivity.TickCountdown` | src/app/shared/services/inactivity.service.ts:49-57 | tick k of a running countdown shows `W - k`; on the first non-positive value it also logs out and stops; a stopped or missing countdown is silent |
| `Inactivity.TicksFollowTrace` | src/app/shared/services/inactivity.service.ts:49-57 | n ticks of the sole countdown emit exactly the closed-form trace `W-k, W-k-1, ...` followed by one logout once past the last tick, and touch nothing else |
| `Inactivity.WarningPhase` | src/app/shared/services/inactivity.service.ts:46-57 | a warning phase emits W, then the countdown values W, W-1, ... and possibly one logout, as the reference trace says |
| `Inactivity.WarningsNeverIncrease` | src/app/shared/services/inactivity.service.ts:48-52 | within a warning phase the shown values never increase |
| `Inactivity.LogoutExactlyOnce` | src/app/shared/services/inactivity.service.ts:53-56 | a phase logs out exactly once if it runs past its last tick and never otherwise; the logout is last, right after the first non-positive value, and all earlier values are positive |
| `Inactivity.SilentAfterLogout` | src/app/shared/services/inactivity.service.ts:53-55 | after the logout, further ticks of that countdown add nothing |
| `Inactivity.NoLogoutWithoutCountdown` | src/app/shared/services/inactivity.service.ts:59-63 | with no countdown alive, no event sequence without an idle-timer expiry can produce a logout or a countdown |
| `Inactivity.ActivityCancelsWarning` | src/app/shared/services/inactivity.service.ts:59-63 | an activity pulse during a warning phase cancels it: no logout follows until a new idle timer expires |
| `Inactivity.StepKeepsInv` | src/app/shared/services/inactivity.service.ts:36-65 | every event preserves the invariant: at most one countdown, a pending idle timer only with no countdown and a live pipeline, listener and pipeline subscribed together |
| `Inactivity.RunKeepsInv` | src/app/shared/services/inactivity.service.ts:36-65 | the invariant holds after any sequence of events |
| `Inactivity.AtMostOneCountdown` | src/app/shared/services/inactivity.service.ts:20-65 | from construction on, at most one countdown ever exists |
| `Inactivity.StopSilencesPipeline` | src/app/shared/services/inactivity.service.ts:72-76 | after stopping, raw input, pulses and idle expiries emit nothing and arm no idle timer |
| `Inactivity.StopKeepsRunningCountdown` | src/app/shared/services/inactivity.service.ts:49-57 | stopping does not cancel a running countdown: it keeps ticking and still logs out exactly once |
| `WebSocketSession.ConnectionUrl` | src/app/shared/services/websocket.service.ts:25 | the URL is the configured URL, then `?Authorization=`, then the token, each at its own offset |
| `WebSocketSession.UrlDeterminesToken` | src/app/shared/services/websocket.service.ts:25 | for a fixed base URL, different tokens give different URLs: the token can be read back |
| `WebSocketSession.TokenInsertedVerbatim` | src/app/shared/services/websocket.service.ts:25 | the token is not URL-encoded: `&` and `=` appear as they are |
| `WebSocketSession.Connect` | src/app/shared/services/websocket.service.ts:20-55 | connect opens and subscribes a new socket exactly when there is none or the current one is closed, keeps the state otherwise, and always signals ready once then completes |
| `WebSocketSession.ConnectOpensWhenNeeded` | src/app/shared/services/websocket.service.ts:22-39 | the socket count grows by one exactly when a socket was needed, and the new current socket has the token's URL |
| `WebSocketSession.ConnectTwiceOpensOnce` | src/app/shared/services/websocket.service.ts:22 | a second connect, with the transport not having reported the socket closed, changes nothing |
| `WebSocketSession.SendMessage` | src/app/shared/services/websocket.service.ts:62-68 | a message goes to the current socket whenever one exists; with none, only "not connected" is logged and the state is unchanged |
| `WebSocketSession.SendIgnoresClosedFlag` | src/app/shared/services/websocket.service.ts:63-64 | sending checks existence, not openness: a socket reported closed still gets the payload |
| `WebSocketSession.Close` | src/app/shared/services/websocket.service.ts:73-77 | close completes the current socket if one exists and is a no-op otherwise |
| `WebSocketSession.NothingBeforeConnect` | src/app/shared/services/websocket.service.ts:62-77 | before any connect, send only logs and close does nothing |
| `WebSocketSession.SendAfterCloseStillForwards` | src/app/shared/services/websocket.service.ts:62-77 | close leaves the completed socket in place, so a later send still calls `next` on the completed socket and logs nothing |
| `WebSocketSession.Receive` | src/app/shared/services/websocket.service.ts:48-51 | a message from a socket whose subscription is live is appended to the relay; others are dropped |
| `WebSocketSession.RelayKeepsArrivalOrder` | src/app/shared/services/websocket.service.ts:48-51 | messages arriving on a live socket are appended to the relay in arrival order |
| `WebSocketSession.StreamEnds` | src/app/shared/services/websocket.service.ts:41-51 | when a socket's stream errors (a transport failure or a frame the JSON deserializer rejects, both swallowed by `catchError`) or completes, that socket's subscription alone ends: its URL and `closed` flag are kept, and relay, outbound calls, current socket and other sockets are unchanged |
| `WebSocketSession.StreamEndEndsOnlyThatSocket` | src/app/shared/services/websocket.service.ts:46-51 | after an error or a completion on a socket's stream, that socket's messages no longer reach the relay, while other sockets relay as before |
| `WebSocketSession.CloseThenCompletionStopsRelay` | src/app/shared/services/websocket.service.ts:41-77 | `close()` followed by the clean completion of the socket's stream ends relaying from it: a frame delivered afterwards is dropped, and the only call made on the socket is `complete` |
| `WebSocketSession.RelayNeverTerminates` | src/app/shared/services/websocket.service.ts:12-13 | whatever happens, the relay only ever receives messages, never an error or completion, and only grows |
| `WebSocketSession.ClosedFlagOnlyFromTransport` | src/app/shared/services/websocket.service.ts:20-77 | no service call and no inbound message or error changes any socket's `closed` flag, and no socket is ever dropped; only the transport's own report changes the flag |
| `WebSocketSession.RunKeepsValid` | src/app/shared/services/websocket.service.ts:22-27 | over any run, `socket$` always names a socket the service created (it is only ever assigned a new socket), and the list of created sockets never shrinks |
| `ChatModel.IsChatResponseMessage` | src/app/pages/chat/chatmodel.ts:46-48 | the guard's value is truthy iff the frame is truthy and its `status_response` is a boolean; a falsy frame is returned itself |
| `ChatModel.IsConnectionInfoMessage` | src/app/pages/chat/chatmodel.ts:54-56 | the guard's value is truthy iff the frame is truthy and its `connectionId` is a string; a falsy frame is returned itself |
| `ChatModel.ChatResponseCharacterised` | src/app/pages/chat/chatmodel.ts:47 | a frame is a chat answer exactly when it is an object whose `status_response` field holds a boolean |
| `ChatModel.ConnectionInfoCharacterised` | src/app/pages/chat/chatmodel.ts:55 | a frame is connection info exactly when it is an object whose `connectionId` field holds a string |
| `ChatModel.ChatResponseAcceptsBothBooleans` | src/app/pages/chat/chatmodel.ts:47 | `status_response` true and false both qualify |
| `ChatModel.ConnectionInfoAcceptsAnyString` | src/app/pages/chat/chatmodel.ts:55 | any string `connectionId` qualifies, the empty string included |
| `ChatModel.ChatResponseRejectsNonBoolean` | src/app/pages/chat/chatmodel.ts:47 | a `status_response` holding the string "true" does not qualify |
| `ChatModel.FalsyPassesNeither` | src/app/pages/chat/chatmodel.ts:46-56 | null, undefined, false, 0, NaN and "" pass neither guard, and each guard returns the falsy value itself |
| `ChatModel.NonObjectsPassNeither` | src/app/pages/chat/chatmodel.ts:46-56 | primitives and arrays pass neither guard |
| `ChatModel.GuardsOverlap` | src/app/pages/chat/chatmodel.ts:46-56 | the guards are not exclusive: a frame with both fields passes both |
| `ChatModel.GuardsIgnoreOtherFields` | src/app/pages/chat/chatmodel.ts:46-56 | changing any other field leaves both verdicts unchanged |
| `NewlineFormat.ReplaceNewlines` | src/app/shared/pipes/newlineformat-pipe.ts:22 | the output has no line feed, and its length is the input length plus 4 per line feed |
| `NewlineFormat.Transform` | src/app/shared/pipes/newlineformat-pipe.ts:17-26 | a missing input gives ""; any output is free of line feeds and has the expected length |
| `NewlineFormat.PositionsCorrespond` | src/app/shared/pipes/newlineformat-pipe.ts:22 | input character i has its block at offset `i + 4*(line feeds before i)`: `<br/>` for a line feed, the character itself otherwise, so order is kept |
| `NewlineFormat.ReplaceDistributes` | src/app/shared/pipes/newlineformat-pipe.ts:22 | the replacement distributes over concatenation: it works character by character |
| `NewlineFormat.NewlineFreeUnchanged` | src/app/shared/pipes/newlineformat-pipe.ts:22 | text without line feeds comes back unchanged |
| `NewlineFormat.TransformIdempotent` | src/app/shared/pipes/newlineformat-pipe.ts:17-22 | applying the pipe twice equals applying it once |
| `NewlineFormat.CarriageReturnKept` | src/app/shared/pipes/newlineformat-pipe.ts:22 | a carriage return is kept: `"\r\n"` becomes `"\r<br/>"` |
| `NewlineFormat.ReplacesInsideText` | src/app/shared/pipes/newlineformat-pipe.ts:22 | `"a\nb"` becomes `"a<br/>b"` |
| `NewlineFormat.NewlinesIsMultiplicity` | src/app/shared/pipes/newlineformat-pipe.ts:22 | the line-feed count used in the length law is the line feed's multiplicity in the input |
| `AuthState.GetSessionId` | src/app/auth/services/auth.service.ts:39-41 | the stored id, or "" exactly when nothing or an empty id is stored; `auth.services.ts` defines the same function at lines 32-34 |
| `AuthService.SetSessionId` | src/app/auth/services/auth.service.ts:46-48 | after storing, the session id reads back as the new id, and the flag is untouched |
| `AuthService.RemoveSessionId` | src/app/auth/services/auth.service.ts:53-55 | after removal the session id reads as "", and the flag is untouched |
| `AuthService.Login` | src/app/auth/services/auth.service.ts:116-127 | on success, authenticated and a fresh session id; on failure, flag false, session id kept and the same error re-thrown |
| `AuthService.FailedLoginKeepsSessionId` | src/app/auth/services/auth.service.ts:122-126 | a failed login leaves the readable session id as it was |
| `AuthService.Logout` | src/app/auth/services/auth.service.ts:133-143 | on success, flag false, session id gone and one navigation to `/login`; on failure, nothing changes, nothing navigates, and the error is re-thrown |
| `AuthService.SessionIdLifecycle` | src/app/auth/services/auth.service.ts:116-143 | after a successful login the id survives `isLoggedIn` and a failed logout, and a successful logout removes it |
| `AuthService.IsLoggedIn` | src/app/auth/services/auth.service.ts:150-165 | on a fetched session, flag and answer are "tokens defined" and a session id is guaranteed, an existing one kept; on fetch failure, false, flag false, and no session id created |
| `AuthService.IsLoggedInIdempotent` | src/app/auth/services/auth.service.ts:150-165 | a repeated check with the same session changes nothing and gives the same answer |
| `AuthService.GetAccessToken` | src/app/auth/services/auth.service.ts:173-183 | a token is returned exactly when the fetched session has tokens with an access token, and then it is that token; otherwise null, never an error |
| `AuthService.TokenImpliesLoggedIn` | src/app/auth/services/auth.service.ts:150-183 | for the same fetch, a returned token means `isLoggedIn()` answers true, and a false answer means no token; a true answer comes with a token exactly when the token set has an access token |
| `AuthService.Construct` | src/app/auth/services/auth.service.ts:27-33 | constructing the service runs one check: after a fetched session the flag is "tokens defined", a stored non-empty id is kept and otherwise one is created; a failed fetch leaves storage and a false flag |
| `AuthServices.Login` | src/app/auth/services/auth.services.ts:73-84 | on success, authenticated with the fresh id stored; on failure, flag false, session id kept and the error re-thrown |
| `AuthServices.Logout` | src/app/auth/services/auth.services.ts:86-95 | on success, flag false and session id removed; on failure both unchanged and the error re-thrown |
| `AuthServices.IsLoggedIn` | src/app/auth/services/auth.services.ts:97-108 | flag and answer are "fetched with tokens"; the session id is never touched |
| `AuthServices.LoginAgrees` | src/app/auth/services/auth.services.ts:73-84 | both services' logins have identical effects and results |
| `AuthServices.LogoutDiffersOnlyInNavigation` | src/app/auth/services/auth.services.ts:86-95 | both logouts leave the same state and result; only `auth.service.ts` navigates to `/login` |
| `AuthServices.IsLoggedInDiffersOnlyInSessionId` | src/app/auth/services/auth.services.ts:97-108 | both checks agree on answer and flag; their session ids differ exactly when the fetch succeeds with no id stored |
| `AuthInterceptor.WithBearer` | src/app/shared/interceptors/auth.interceptor.ts:22-26 | the clone keeps URL, body and every other header, and sets `Authorization` to `Bearer ` plus the token |
| `AuthInterceptor.Intercept` | src/app/shared/interceptors/auth.interceptor.ts:7-33 | exactly one request is forwarded; the token is requested iff the URL starts with the base URL; only a base-URL request with a truthy token is decorated, gaining the bearer header with every other header kept, and everything else goes through unchanged |
| `AuthInterceptor.DecoratedIff` | src/app/shared/interceptors/auth.interceptor.ts:14-30 | a request is changed exactly when the prefix test passes, a truthy token exists, and the request does not already carry that header value |
| `AuthInterceptor.DecisionIgnoresBodyAndHeaders` | src/app/shared/interceptors/auth.interceptor.ts:14 | the decision depends on the URL, not the body or headers |
| `AuthInterceptor.PrefixTestIsTextual` | src/app/shared/interceptors/auth.interceptor.ts:14 | the test is a plain string prefix: a sibling path such as `/devices` under base `/dev` also gets the token |
| `AuthInterceptor.EmptyBaseInterceptsAll` | src/app/shared/interceptors/auth.interceptor.ts:14 | an empty base URL makes every request ask for the token |
| `Register.PasswordsMatchValidator` | src/app/auth/pages/register/register.ts:10-14 | null exactly when the two password values are strictly equal, otherwise `{passwordsMismatch: true}` |
| `Register.ValidatorSymmetric` | src/app/auth/pages/register/register.ts:11-13 | swapping the two password fields does not change the verdict |
| `Register.ValidatorIgnoresOtherControls` | src/app/auth/pages/register/register.ts:11-13 | changing any other control does not change the verdict |
| `Register.ValidatorAcceptsBothMissing` | src/app/auth/pages/register/register.ts:11-13 | with both controls absent, both values are undefined and the group is valid |
| `Register.ValidatorIsStrict` | src/app/auth/pages/register/register.ts:13 | "" against null, or "" against a missing control, is a mismatch |
| `Register.MarkAllAsTouched` | src/app/auth/pages/register/register.ts:48 | every control becomes touched, keeps its value, and no control is added or removed |
| `Register.ErrorText` | src/app/auth/pages/register/register.ts:59 | the shown error is never empty: the error's own message if it has one, and exactly "Ocurrió un error durante el registro." when the message is empty or missing |
| `Register.OnRegister` | src/app/auth/pages/register/register.ts:46-61 | an invalid form is only marked touched, with no register call and the message kept; a valid one clears the message, calls register with email and password, then navigates with the email or shows the error text |
| `Register.MismatchBlocksSubmit` | src/app/auth/pages/register/register.ts:43-50 | mismatched passwords block the register call whatever the field validators say |
| `Register.EmptyMessageFallsBack` | src/app/auth/pages/register/register.ts:58-59 | a failure without a message shows "Ocurrió un error durante el registro." |

## Left out

- Real timers, `throttleTime`, `NgZone` and the DOM listeners are replaced by discrete events. The throttle interval, timer drift and wall-clock spacing of pulses are not modelled. The model says which event may come next, not when.
- Inactivity.PulseArmsIdleDelay: the two thresholds are whole numbers (`int`). The source takes any JavaScript number, so a fractional value such as 0.5 minutes or 2.5 warning seconds is not modelled, and the countdown trace assumes whole seconds.
- Inactivity.Pulse: a negative idle delay is excluded by the `Config.Valid` precondition. What the timer library does with a negative delay is not modelled.
- When, after `socket$.complete()`, the stream's completion arrives is up to the transport: a run may deliver frames between a `close()` and the `Completed` event, and the model does not force the completion to follow. What `closed` means after `socket$.complete()` is internal to the transport library. The flag changes only through the `ClosedFlag` event, and nothing is claimed about close followed by connect.
- The WebSocket library's buffering of sends before the socket opens, and its open/close observers (which only log), are not modelled.
- WebSocketSession.Connect: models the observable once it is subscribed. The deferred, cold start of the observable is not modelled.
- Amplify (`signIn`, `signOut`, `fetchAuthSession`), `localStorage`, `uuidv4` and the router are foreign calls. They appear as outcomes, the stored state, a fresh-id parameter and a navigation list.
- `register`, `confirmSignUp`, `resendSignUpCode` and `getSession` in both auth services, and the console logging, are left out. Each passes a single identity-provider call through and re-throws its error. The register page's call to `register` is modelled as an input outcome.
- AuthInterceptor.Intercept: the token is an input. The source calls `getJwtToken` on the imported `auth.services.ts` service, which defines no such method.
- AuthInterceptor.WithBearer: header names are compared exactly. The framework's case-insensitive header lookup is not modelled.
- Register.OnRegister: the field validators (`required`, `email`, `minLength(8)`) are summarised by one boolean input. Control values are limited to undefined, null and text, the values this form's inputs can hold.
- ChatModel.IsChatResponseMessage: property lookup on primitives and arrays yields undefined. This is exact for the two field names the guards read, but not for built-in names such as `length`.
- ChatModel.IsConnectionInfoMessage: the same property-lookup simplification applies.
- The sanitizer wrapper (`bypassSecurityTrustHtml`) around the pipe's result is dropped; the model returns the plain string.
- The UI components (header dialog, login, confirm-register, chat page, counter, sidebar, layouts) are left out. So are the HTTP wrapper, the JSON-parse operator, the reCAPTCHA service, routes, environments and the stray `MiComponente` class. They are glue, or depend on browser globals.
