/**
  The WebSocket session holder (`WebSocketService`) as a state machine.

  Every socket the service ever created is kept in `sockets`, indexed by
  creation order; `current` is the one the `socket$` field refers to. A
  socket's `closed` flag belongs to the transport library and changes only
  through the `ClosedFlag` event; `relaying` says whether the service's
  subscription to that socket (which forwards into the relay subject) is
  still live. That subscription ends when the socket's stream errors (a
  transport failure, or an inbound frame the JSON deserializer rejects) or
  completes (a clean close, whether after `close()` or by the server). Calls the service makes on a socket (`next`, `complete`) are
  recorded in `outbound`.
 */
module WebSocketSession {
  import opened Common
  import opened Json

  const AuthorizationQuery := "?Authorization="

  datatype Socket = Socket(url: string, closed: bool, relaying: bool)

  /** What the relay subject (`messagesSubject`) has been told, in order. */
  datatype Notification = Next(message: JsValue) | Error | Complete

  /** A call the service made on socket number `socket`. */
  datatype Outbound = Send(socket: nat, payload: JsValue) | CompleteSocket(socket: nat)

  datatype State = State(
    sockets: seq<Socket>,
    current: Option<nat>,
    relay: seq<Notification>,
    outbound: seq<Outbound>)

  /** The notifications `connect` delivers to its subscriber. */
  datatype Ready = ReadyNext | ReadyComplete

  datatype Connected = Connected(state: State, ready: seq<Ready>)

  /** What `sendMessage` did: the new state, and whether it logged "not connected". */
  datatype Sent = Sent(state: State, loggedNotConnected: bool)

  /** A service that has not connected yet. */
  const Initial := State([], None, [], [])

  /** The socket the `socket$` field refers to, if any. */
  function CurrentSocket(s: State): (r: Option<Socket>)
    ensures r.Some? <==> s.current.Some? && s.current.value < |s.sockets|
    ensures r.Some? ==> r.value == s.sockets[s.current.value]
  {
    if s.current.Some? && s.current.value < |s.sockets| then Some(s.sockets[s.current.value]) else None
  }

  /** `${url}?Authorization=${accessToken}`: the token is inserted verbatim. */
  function ConnectionUrl(baseUrl: string, token: string): (r: string)
    ensures |r| == |baseUrl| + |AuthorizationQuery| + |token|
    ensures r[..|baseUrl|] == baseUrl
    ensures r[|baseUrl|..|baseUrl| + |AuthorizationQuery|] == AuthorizationQuery
    ensures r[|baseUrl| + |AuthorizationQuery|..] == token
  {
    var r := baseUrl + AuthorizationQuery + token;
    assert r[..|baseUrl|] == baseUrl;
    assert r[|baseUrl|..|baseUrl| + |AuthorizationQuery|] == AuthorizationQuery;
    assert r[|baseUrl| + |AuthorizationQuery|..] == token;
    r
  }

  /** `connect` opens a socket only when there is none or the current one reports `closed`. */
  predicate NeedsSocket(s: State) {
    CurrentSocket(s).None? || CurrentSocket(s).value.closed
  }

  /**
    `connect(accessToken)`, once subscribed: opens and subscribes a new socket
    if needed, then always signals ready once and completes.
   */
  function Connect(s: State, baseUrl: string, token: string): (r: Connected)
    ensures r.ready == [ReadyNext, ReadyComplete]
    ensures !NeedsSocket(s) ==> r.state == s
    ensures NeedsSocket(s) ==>
              && r.state.sockets == s.sockets + [Socket(ConnectionUrl(baseUrl, token), false, true)]
              && r.state.current == Some(|s.sockets|)
              && r.state.relay == s.relay && r.state.outbound == s.outbound
  {
    if NeedsSocket(s) then
      var created := Socket(ConnectionUrl(baseUrl, token), false, true);
      Connected(s.(sockets := s.sockets + [created], current := Some(|s.sockets|)), [ReadyNext, ReadyComplete])
    else
      Connected(s, [ReadyNext, ReadyComplete])
  }

  /**
    `sendMessage(msg)`: forwarded to the current socket whenever one exists,
    open or not; otherwise only an error is logged.
   */
  function SendMessage(s: State, msg: JsValue): (r: Sent)
    ensures CurrentSocket(s).Some? ==>
              !r.loggedNotConnected && r.state == s.(outbound := s.outbound + [Send(s.current.value, msg)])
    ensures CurrentSocket(s).None? ==> r.loggedNotConnected && r.state == s
  {
    if CurrentSocket(s).Some? then Sent(s.(outbound := s.outbound + [Send(s.current.value, msg)]), false)
    else Sent(s, true)
  }

  /** `close()`: completes the current socket if there is one, and does nothing otherwise. */
  function Close(s: State): (r: State)
    ensures CurrentSocket(s).Some? ==> r == s.(outbound := s.outbound + [CompleteSocket(s.current.value)])
    ensures CurrentSocket(s).None? ==> r == s
  {
    if CurrentSocket(s).Some? then s.(outbound := s.outbound + [CompleteSocket(s.current.value)]) else s
  }

  /** Socket `i` delivers a message: relayed if the service's subscription to it is live. */
  function Receive(s: State, i: nat, msg: JsValue): (r: State)
    ensures i < |s.sockets| && s.sockets[i].relaying ==> r == s.(relay := s.relay + [Next(msg)])
    ensures !(i < |s.sockets| && s.sockets[i].relaying) ==> r == s
  {
    if i < |s.sockets| && s.sockets[i].relaying then s.(relay := s.relay + [Next(msg)]) else s
  }

  /**
    Socket `i`'s stream ends, by error or by completion. An error is turned
    into an empty completion by `catchError`, and the subscriber only handles
    `next`, so either way only that subscription ends and the relay is not
    told anything.
   */
  function StreamEnds(s: State, i: nat): (r: State)
    ensures r.relay == s.relay && r.current == s.current && r.outbound == s.outbound
    ensures |r.sockets| == |s.sockets|
    ensures i < |s.sockets| ==> !r.sockets[i].relaying && r.sockets[i].url == s.sockets[i].url
    ensures i < |s.sockets| ==> r.sockets[i] == s.sockets[i].(relaying := false)
    ensures forall j :: 0 <= j < |s.sockets| && j != i ==> r.sockets[j] == s.sockets[j]
  {
    if i < |s.sockets| then s.(sockets := s.sockets[i := s.sockets[i].(relaying := false)]) else s
  }

  /** The transport library changes socket `i`'s `closed` flag. */
  function SetClosed(s: State, i: nat, closed: bool): State {
    if i < |s.sockets| then s.(sockets := s.sockets[i := s.sockets[i].(closed := closed)]) else s
  }

  datatype Event =
    | ConnectCall(token: string)
    | SendCall(msg: JsValue)
    | CloseCall
    | Inbound(socket: nat, msg: JsValue)
    | Failure(socket: nat)      // transport error, or a frame the deserializer rejects
    | Completed(socket: nat)    // the socket's stream completes after a clean close
    | ClosedFlag(socket: nat, closed: bool)

  function StepOf(s: State, baseUrl: string, e: Event): State {
    match e
    case ConnectCall(token) => Connect(s, baseUrl, token).state
    case SendCall(msg) => SendMessage(s, msg).state
    case CloseCall => Close(s)
    case Inbound(i, msg) => Receive(s, i, msg)
    case Failure(i) => StreamEnds(s, i)
    case Completed(i) => StreamEnds(s, i)
    case ClosedFlag(i, closed) => SetClosed(s, i, closed)
  }

  function Run(s: State, baseUrl: string, events: seq<Event>): State
    decreases |events|
  {
    if events == [] then s else Run(StepOf(s, baseUrl, events[0]), baseUrl, events[1..])
  }

  // ---------------------------------------------------------------------------
  // Properties

  /** The token can be read back from the opened URL: the URL determines the token. */
  lemma UrlDeterminesToken(baseUrl: string, t1: string, t2: string)
    requires ConnectionUrl(baseUrl, t1) == ConnectionUrl(baseUrl, t2)
    ensures t1 == t2
  {
  }

  /** The token is not encoded: characters such as `&` and `=` go into the URL as they are. */
  lemma TokenInsertedVerbatim()
    ensures ConnectionUrl("wss://h", "a&b=c") == "wss://h?Authorization=a&b=c"
  {
  }

  /** A second `connect` while the current socket is not closed opens nothing. */
  lemma ConnectTwiceOpensOnce(s: State, baseUrl: string, t1: string, t2: string)
    ensures var once := Connect(s, baseUrl, t1).state;
            && Connect(once, baseUrl, t2).state == once
            && |once.sockets| <= |s.sockets| + 1
  {
  }

  /** `connect` opens exactly one socket when one is needed, with the URL built from the token. */
  lemma ConnectOpensWhenNeeded(s: State, baseUrl: string, token: string)
    ensures var r := Connect(s, baseUrl, token).state;
            && (|r.sockets| == |s.sockets| + 1 <==> NeedsSocket(s))
            && (NeedsSocket(s) ==> CurrentSocket(r) == Some(Socket(ConnectionUrl(baseUrl, token), false, true)))
  {
  }

  /** The events of `msgs` arriving, in order, on socket `i`. */
  function Arrivals(i: nat, msgs: seq<JsValue>): (r: seq<Event>)
    ensures |r| == |msgs|
  {
    seq(|msgs|, j requires 0 <= j < |msgs| => Inbound(i, msgs[j]))
  }

  /** Messages arriving on a socket whose subscription is live are relayed in arrival order. */
  lemma {:induction false} RelayKeepsArrivalOrder(s: State, baseUrl: string, i: nat, msgs: seq<JsValue>)
    requires i < |s.sockets| && s.sockets[i].relaying
    ensures Run(s, baseUrl, Arrivals(i, msgs)).relay ==
            s.relay + seq(|msgs|, j requires 0 <= j < |msgs| => Next(msgs[j]))
    ensures Run(s, baseUrl, Arrivals(i, msgs)).sockets == s.sockets
    decreases |msgs|
  {
    if msgs != [] {
      var s1 := Receive(s, i, msgs[0]);
      assert Arrivals(i, msgs)[0] == Inbound(i, msgs[0]);
      assert Arrivals(i, msgs)[1..] == Arrivals(i, msgs[1..]);
      RelayKeepsArrivalOrder(s1, baseUrl, i, msgs[1..]);
      assert seq(|msgs|, j requires 0 <= j < |msgs| => Next(msgs[j])) ==
             [Next(msgs[0])] + seq(|msgs[1..]|, j requires 0 <= j < |msgs[1..]| => Next(msgs[1..][j]));
    } else {
      assert Arrivals(i, msgs) == [];
    }
  }

  /**
    After a socket's stream errors or completes, nothing it delivers reaches
    the relay; other sockets are unaffected.
   */
  lemma StreamEndEndsOnlyThatSocket(s: State, baseUrl: string, e: Event, j: nat, msg: JsValue)
    requires e.Failure? || e.Completed?
    requires e.socket < |s.sockets| && j < |s.sockets|
    ensures var ended := StepOf(s, baseUrl, e);
            && Receive(ended, e.socket, msg) == ended
            && (j != e.socket ==> Receive(ended, j, msg).relay == Receive(s, j, msg).relay)
  {
  }

  /**
    `close()` followed by the clean completion of the socket's stream: a
    frame the socket still delivers afterwards is not relayed.
   */
  lemma CloseThenCompletionStopsRelay(s: State, baseUrl: string, msg: JsValue)
    requires CurrentSocket(s).Some?
    ensures var i := s.current.value;
            var r := Run(s, baseUrl, [CloseCall, Completed(i), Inbound(i, msg)]);
            && r.relay == s.relay
            && r.outbound == s.outbound + [CompleteSocket(i)]
            && i < |r.sockets| && !r.sockets[i].relaying
  {
    var i := s.current.value;
    var events := [CloseCall, Completed(i), Inbound(i, msg)];
    var closed := Close(s);
    var ended := StreamEnds(closed, i);
    assert events[1..] == [Completed(i), Inbound(i, msg)] && events[1..][1..] == [Inbound(i, msg)];
    assert Run(s, baseUrl, events) == Run(ended, baseUrl, [Inbound(i, msg)]);
    assert Run(ended, baseUrl, [Inbound(i, msg)]) == Receive(ended, i, msg);
  }

  /** The relay only ever receives messages: no error and no completion. */
  predicate RelayOnlyMessages(s: State) {
    forall k :: 0 <= k < |s.relay| ==> s.relay[k].Next?
  }

  lemma {:induction false} RelayNeverTerminates(s: State, baseUrl: string, events: seq<Event>)
    requires RelayOnlyMessages(s)
    ensures RelayOnlyMessages(Run(s, baseUrl, events))
    ensures |Run(s, baseUrl, events).relay| >= |s.relay|
    decreases |events|
  {
    if events != [] {
      var s1 := StepOf(s, baseUrl, events[0]);
      assert RelayOnlyMessages(s1) && |s1.relay| >= |s.relay|;
      RelayNeverTerminates(s1, baseUrl, events[1..]);
    }
  }

  /**
    The service never writes a socket's `closed` flag: every event other than
    the transport's own `ClosedFlag` keeps the flag of every existing socket,
    and sockets are never removed.
   */
  lemma ClosedFlagOnlyFromTransport(s: State, baseUrl: string, e: Event)
    requires !e.ClosedFlag?
    ensures |StepOf(s, baseUrl, e).sockets| >= |s.sockets|
    ensures forall i :: 0 <= i < |s.sockets| ==> StepOf(s, baseUrl, e).sockets[i].closed == s.sockets[i].closed
  {
  }

  /** Indices stay meaningful: `current`, when set, names an existing socket. */
  predicate Valid(s: State) {
    s.current.Some? ==> s.current.value < |s.sockets|
  }

  lemma {:induction false} RunKeepsValid(s: State, baseUrl: string, events: seq<Event>)
    requires Valid(s)
    ensures Valid(Run(s, baseUrl, events))
    ensures |Run(s, baseUrl, events).sockets| >= |s.sockets|
    decreases |events|
  {
    if events != [] {
      var s1 := StepOf(s, baseUrl, events[0]);
      assert Valid(s1) && |s1.sockets| >= |s.sockets|;
      RunKeepsValid(s1, baseUrl, events[1..]);
    }
  }

  /**
    Sending checks that a socket exists, not that it is open: a socket the
    transport reports closed still receives the payload.
   */
  lemma SendIgnoresClosedFlag(s: State, msg: JsValue)
    requires CurrentSocket(s).Some? && CurrentSocket(s).value.closed
    ensures SendMessage(s, msg).state.outbound == s.outbound + [Send(s.current.value, msg)]
  {
  }

  /** Before any `connect`, sending and closing change nothing. */
  lemma NothingBeforeConnect(msg: JsValue)
    ensures SendMessage(Initial, msg) == Sent(Initial, true)
    ensures Close(Initial) == Initial
  {
  }

  /**
    `close()` completes the socket but leaves it as the current one, so a
    later `sendMessage` still calls `next` on it instead of logging "not connected".
   */
  lemma SendAfterCloseStillForwards(s: State, msg: JsValue)
    requires CurrentSocket(s).Some?
    ensures var closed := Close(s);
            var sent := SendMessage(closed, msg);
            && !sent.loggedNotConnected
            && sent.state.outbound == s.outbound + [CompleteSocket(s.current.value), Send(s.current.value, msg)]
  {
  }
}
