/**
  The two structural type guards that classify inbound WebSocket frames:
  a chat answer carries a boolean `status_response`, a connection-info frame
  carries a string `connectionId`. Each guard returns what the JavaScript
  expression `data && typeof data.<field> === '<type>'` evaluates to, and a
  frame "satisfies" the guard when that value is truthy.
 */
module ChatModel {
  import opened Json

  const StatusResponseField := "status_response"
  const ConnectionIdField := "connectionId"

  /** `isChatResponseMessage(data)`. */
  function IsChatResponseMessage(data: JsValue): (r: JsValue)
    ensures Truthy(r) <==> Truthy(data) && Get(data, StatusResponseField).Bool?
    ensures !Truthy(data) ==> r == data
    ensures Truthy(data) ==> r.Bool?
  {
    And(data, Bool(TypeOf(Get(data, StatusResponseField)) == TBoolean))
  }

  /** `isConnectionInfoMessage(data)`. */
  function IsConnectionInfoMessage(data: JsValue): (r: JsValue)
    ensures Truthy(r) <==> Truthy(data) && Get(data, ConnectionIdField).Str?
    ensures !Truthy(data) ==> r == data
    ensures Truthy(data) ==> r.Bool?
  {
    And(data, Bool(TypeOf(Get(data, ConnectionIdField)) == TString))
  }

  /** The frame passes the chat-answer guard (the guard's value is truthy). */
  predicate IsChatResponse(data: JsValue) {
    Truthy(IsChatResponseMessage(data))
  }

  /** The frame passes the connection-info guard. */
  predicate IsConnectionInfo(data: JsValue) {
    Truthy(IsConnectionInfoMessage(data))
  }

  /** An object whose `status_response` is a boolean passes, whichever boolean it is. */
  lemma ChatResponseAcceptsBothBooleans(fields: map<string, JsValue>, b: bool)
    ensures IsChatResponse(Obj(fields[StatusResponseField := Bool(b)]))
  {
  }

  /** An object whose `connectionId` is a string passes, the empty string included. */
  lemma ConnectionInfoAcceptsAnyString(fields: map<string, JsValue>, id: string)
    ensures IsConnectionInfo(Obj(fields[ConnectionIdField := Str(id)]))
  {
  }

  /** Falsy values (`null`, `undefined`, `false`, `0`, `NaN`, `""`) pass neither guard. */
  lemma FalsyPassesNeither(data: JsValue)
    requires !Truthy(data)
    ensures !IsChatResponse(data) && !IsConnectionInfo(data)
    ensures IsChatResponseMessage(data) == data && IsConnectionInfoMessage(data) == data
  {
  }

  /** Primitives and arrays have neither field, so they pass neither guard. */
  lemma NonObjectsPassNeither(data: JsValue)
    requires !data.Obj?
    ensures !IsChatResponse(data) && !IsConnectionInfo(data)
  {
  }

  /** A frame passes the chat-answer guard exactly when it is an object with a boolean `status_response`. */
  lemma ChatResponseCharacterised(data: JsValue)
    ensures IsChatResponse(data) <==>
            data.Obj? && StatusResponseField in data.fields && data.fields[StatusResponseField].Bool?
  {
  }

  /** A frame passes the connection-info guard exactly when it is an object with a string `connectionId`. */
  lemma ConnectionInfoCharacterised(data: JsValue)
    ensures IsConnectionInfo(data) <==>
            data.Obj? && ConnectionIdField in data.fields && data.fields[ConnectionIdField].Str?
  {
  }

  /** The guards are not mutually exclusive: a frame carrying both fields passes both. */
  lemma GuardsOverlap()
    ensures var both := Obj(map[StatusResponseField := Bool(true), ConnectionIdField := Str("abc")]);
            IsChatResponse(both) && IsConnectionInfo(both)
  {
  }

  /**
    Neither guard looks at any field other than its own: changing or adding
    any other field (`response`, `error`, `message`, `requestId`, ...) leaves
    both verdicts as they were.
   */
  lemma GuardsIgnoreOtherFields(fields: map<string, JsValue>, key: string, v: JsValue)
    requires key != StatusResponseField && key != ConnectionIdField
    ensures IsChatResponse(Obj(fields[key := v])) == IsChatResponse(Obj(fields))
    ensures IsConnectionInfo(Obj(fields[key := v])) == IsConnectionInfo(Obj(fields))
  {
  }

  /** A chat answer whose `status_response` is not a boolean (here the string "true") is rejected. */
  lemma ChatResponseRejectsNonBoolean(fields: map<string, JsValue>)
    ensures !IsChatResponse(Obj(fields[StatusResponseField := Str("true")]))
  {
  }
}
