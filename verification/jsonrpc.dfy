/** The parser: classification, parsing, and what becomes of a printed message. */
module JsonRpc {
  import opened JsonValues
  import opened Messages

  datatype Parsed<T> = Ok(value: T) | Thrown(info: ErrorInfo)

  predicate IsRequest(j: Json) {
    Has(j, "method") && Has(j, "id")
  }

  predicate IsNotification(j: Json) {
    Has(j, "method") && !Has(j, "id")
  }

  predicate IsResponse(j: Json) {
    Has(j, "result") && Has(j, "id")
  }

  function ParseFailure(text: string): ErrorInfo {
    ErrorInfo(PARSE_ERROR, CStr(text), JNull)
  }

  /** The version check that calls and responses share; None means that it passed. */
  function VersionFailure(j: Json): Option<ErrorInfo> {
    if !Has(j, "jsonrpc") then Some(ParseFailure("jsonrpc is missing"))
    else if !j.members["jsonrpc"].JString? then Some(ParseFailure(LIBRARY_TEXT))
    else if j.members["jsonrpc"].s != "2.0" then Some(ParseFailure("invalid jsonrpc value: " + j.members["jsonrpc"].s))
    else None
  }

  function ParseNotification(j: Json): Parsed<Message>
    requires Has(j, "method")
  {
    var name := j.members["method"];
    if VersionFailure(j).Some? then Thrown(VersionFailure(j).value)
    else if !name.JString? then Thrown(ParseFailure("method must be a string value"))
    else if name.s == "" then Thrown(ParseFailure("method must not be empty"))
    else Ok(Notification(name.s, ServiceOf(name.s), ServiceMethodOf(name.s), Member(j, "params")))
  }

  /** Errors found while parsing a request's call turn into internal errors. */
  function ParseRequest(j: Json): Parsed<Message>
    requires IsRequest(j)
  {
    var id := ParseId(j.members["id"]);
    if id.None? then Thrown(ErrorInfo(INVALID_REQUEST, "id must be integer, string or null", JNull))
    else
      match ParseNotification(j)
      case Thrown(info) => Thrown(ErrorInfo(INTERNAL_ERROR, info.message, JNull))
      case Ok(n) =>
        if n.Notification? then Ok(Request(id.value, n.name, n.service, n.serviceMethod, n.params)) else Ok(n)
  }

  /** What is wrong with the `error` member of a response, if anything. */
  function ErrorFailure(e: Json): Option<ErrorInfo> {
    if !Has(e, "code") then Some(ParseFailure("code is missing"))
    else if !e.members["code"].JInt? && !e.members["code"].JFloat? && !e.members["code"].JBool? then
      Some(ParseFailure(LIBRARY_TEXT))
    else if !Has(e, "message") then Some(ParseFailure("message is missing"))
    else if !e.members["message"].JString? then Some(ParseFailure(LIBRARY_TEXT))
    else None
  }

  /** A response built from JSON never counts as an error, also when it has only an `error`. */
  function ParseResponse(j: Json): Parsed<Message> {
    var id := ParseId(Member(j, "id"));
    if VersionFailure(j).Some? then Thrown(VersionFailure(j).value)
    else if !Has(j, "id") then Thrown(ParseFailure("id is missing"))
    else if id.None? then Thrown(ParseFailure("id must be integer, string or null"))
    else if Has(j, "result") then Ok(Response(id.value, j.members["result"], None))
    else if !Has(j, "error") then Thrown(ParseFailure("response must contain result or error"))
    else if ErrorFailure(j.members["error"]).Some? then Thrown(ErrorFailure(j.members["error"]).value)
    else Ok(Response(id.value, JNull, None))
  }

  function Caught(p: Parsed<Message>): Message {
    match p
    case Ok(m) => m
    case Thrown(info) => Error(info)
  }

  /** Total: every JSON value is some message. */
  function Parse(j: Json): Message {
    if IsRequest(j) then Caught(ParseRequest(j))
    else if IsNotification(j) then Caught(ParseNotification(j))
    else if IsResponse(j) then Caught(ParseResponse(j))
    else if j.JArray? then
      if j.elems == [] then INVALID_REQUEST_MESSAGE
      else Batch(seq(|j.elems|, i requires 0 <= i < |j.elems| => Parse(j.elems[i])))
    else INVALID_REQUEST_MESSAGE
  }

  method ParseBatch(j: Json) returns (m: Message)
    requires j.JArray?
    ensures m == Parse(j)
  {
    var entities := [];
    for i := 0 to |j.elems|
      invariant |entities| == i && forall k :: 0 <= k < i ==> entities[k] == Parse(j.elems[k])
    {
      entities := entities + [Parse(j.elems[i])];
    }
    m := if entities == [] then INVALID_REQUEST_MESSAGE else Batch(entities);
  }

  // ---------------------------------------------------------------------------------------
  // Exactly what is accepted
  // ---------------------------------------------------------------------------------------

  /** The parts of a call that sections 4 and 5 of JSON-RPC 2.0 ask for. */
  predicate ProperCall(j: Json) {
    && Has(j, "jsonrpc") && j.members["jsonrpc"] == JString("2.0")
    && Has(j, "method") && j.members["method"].JString? && j.members["method"].s != ""
  }

  predicate ProperId(j: Json) {
    Has(j, "id") && (j.members["id"].JNull? || j.members["id"].JInt? || j.members["id"].JString?)
  }

  /** A value becomes a request exactly when it is an object with the version, a non-empty
      method name and an id that is null, an integer or a string; and likewise for the other
      kinds of message.  A batch has one message for each element, in order. */
  lemma ParsesExactly(j: Json)
    ensures Parse(j).Request? <==> ProperCall(j) && ProperId(j)
    ensures Parse(j).Notification? <==> ProperCall(j) && !Has(j, "id")
    ensures Parse(j).Response? <==>
              ProperId(j) && !Has(j, "method") && Has(j, "result")
              && Has(j, "jsonrpc") && j.members["jsonrpc"] == JString("2.0")
    ensures Parse(j).Batch? <==> j.JArray? && j.elems != []
    ensures Parse(j).Batch? ==>
              |Parse(j).entities| == |j.elems|
              && forall i :: 0 <= i < |j.elems| ==> Parse(j).entities[i] == Parse(j.elems[i])
    ensures Parse(j).Request? ==>
              Parse(j) == Request(ParseId(j.members["id"]).value, j.members["method"].s,
                                  ServiceOf(j.members["method"].s),
                                  ServiceMethodOf(j.members["method"].s), Member(j, "params"))
  {
  }

  /** An error object with the two members that section 5.1 of JSON-RPC 2.0 demands. */
  predicate ProperError(e: Json) {
    && Has(e, "code") && (e.members["code"].JInt? || e.members["code"].JFloat? || e.members["code"].JBool?)
    && Has(e, "message") && e.members["message"].JString?
  }

  /** JSON that could be a response of its own. */
  predicate ProperResponse(j: Json) {
    && Has(j, "jsonrpc") && j.members["jsonrpc"] == JString("2.0") && ProperId(j)
    && (Has(j, "result") || (Has(j, "error") && ProperError(j.members["error"])))
  }

  /** Exactly which JSON becomes a response, and which: the result is taken as it is, and an error
      is dropped. */
  lemma ResponsesExactly(j: Json)
    ensures ParseResponse(j).Ok? <==> ProperResponse(j)
    ensures ParseResponse(j).Ok? ==>
              ParseResponse(j) == Ok(Response(ParseId(j.members["id"]).value, Member(j, "result"), None))
    ensures ParseResponse(j).Thrown? ==> ParseResponse(j).info.code == PARSE_ERROR
  {
  }

  /** The codes of what is not accepted: a request with a bad id is an invalid request, one that is
      improper otherwise an internal error, other improper messages are parse errors, and what is
      no message at all is an invalid request. */
  lemma RefusedExactly(j: Json)
    requires Parse(j).Error?
    ensures var code := Parse(j).info.code;
            && (IsRequest(j) && !ProperId(j) ==> code == INVALID_REQUEST)
            && (IsRequest(j) && ProperId(j) ==> code == INTERNAL_ERROR && !ProperCall(j))
            && (!IsRequest(j) && (IsNotification(j) || IsResponse(j)) ==> code == PARSE_ERROR)
            && (!IsRequest(j) && !IsNotification(j) && !IsResponse(j) ==> Parse(j) == INVALID_REQUEST_MESSAGE)
  {
  }

  // ---------------------------------------------------------------------------------------
  // The round trip
  // ---------------------------------------------------------------------------------------

  /** What the constructors guarantee: derived names, and integer ids that are `int`s. */
  predicate WellFormed(m: Message) {
    match m
    case Request(id, name, service, serviceMethod, _) =>
      (id.IdInt? ==> Fits32(id.n)) && service == ServiceOf(name) && serviceMethod == ServiceMethodOf(name)
    case Notification(name, service, serviceMethod, _) =>
      service == ServiceOf(name) && serviceMethod == ServiceMethodOf(name)
    case Response(id, _, _) => id.IdInt? ==> Fits32(id.n)
    case Batch(entities) => forall i :: 0 <= i < |entities| ==> WellFormed(entities[i])
    case Error(_) => true
  }

  /** Calls with a name, results with an id, batches of such, and the one error that every
      unintelligible value turns into. */
  predicate Survives(m: Message) {
    match m
    case Request(_, name, _, _, _) => name != ""
    case Notification(name, _, _, _) => name != ""
    case Response(id, _, error) => !id.IdNull? && error.None?
    case Batch(entities) => entities != [] && forall i :: 0 <= i < |entities| ==> Survives(entities[i])
    case Error(_) => m == INVALID_REQUEST_MESSAGE
  }

  lemma IdRoundTrip(id: Id)
    requires id.IdInt? ==> Fits32(id.n)
    ensures ParseId(IdToJson(id)) == Some(id)
  {
  }

  lemma CallShape(name: string, params: Json)
    ensures var j := JObject(CallToJson(name, params));
            && Member(j, "jsonrpc") == VERSION && Member(j, "method") == JString(name) && Member(j, "params") == params
            && Has(j, "jsonrpc") && Has(j, "method") && !Has(j, "id") && !Has(j, "result")
  {
  }

  lemma RequestRoundTrip(m: Message)
    requires WellFormed(m) && m.Request?
    ensures Parse(ToJson(m)) == m <==> Survives(m)
  {
    CallShape(m.name, m.params);
    IdRoundTrip(m.id);
  }

  lemma NotificationRoundTrip(m: Message)
    requires WellFormed(m) && m.Notification?
    ensures Parse(ToJson(m)) == m <==> Survives(m)
  {
    CallShape(m.name, m.params);
  }

  lemma ResponseRoundTrip(m: Message)
    requires WellFormed(m) && m.Response?
    ensures Parse(ToJson(m)) == m <==> Survives(m)
  {
    IdRoundTrip(m.id);
  }

  /** Parsing what was printed gives the message back exactly when the message survives. */
  lemma {:induction false} RoundTripExactly(m: Message)
    requires WellFormed(m)
    ensures Parse(ToJson(m)) == m <==> Survives(m)
    decreases m
  {
    match m
    case Request(_, _, _, _, _) => RequestRoundTrip(m);
    case Notification(_, _, _, _) => NotificationRoundTrip(m);
    case Response(_, _, _) => ResponseRoundTrip(m);
    case Batch(entities) =>
      forall i | 0 <= i < |entities|
        ensures Parse(ToJson(entities[i])) == entities[i] <==> Survives(entities[i])
      {
        RoundTripExactly(entities[i]);
      }
      BatchRoundTrip(entities);
    case Error(_) =>
  }

  lemma BatchRoundTrip(entities: seq<Message>)
    ensures Parse(ToJson(Batch(entities))) == Batch(entities) <==>
            entities != [] && forall i :: 0 <= i < |entities| ==> Parse(ToJson(entities[i])) == entities[i]
  {
    if entities != [] {
      var j := ToJson(Batch(entities));
      var back := Parse(j);
      assert back.Batch? && |back.entities| == |entities|;
      assert forall i :: 0 <= i < |entities| ==> back.entities[i] == Parse(ToJson(entities[i]));
      if forall i :: 0 <= i < |entities| ==> Parse(ToJson(entities[i])) == entities[i] {
        assert back.entities == entities;
      }
    }
  }

  /** Calls made through the constructors survive unless their name, cut at the first NUL, is
      empty; they have the id and the parameters given. */
  lemma ConstructedCallsRoundTrip(id: Id, name: string, params: Json)
    requires id.IdInt? ==> Fits32(id.n)
    ensures var r, n := NewRequest(id, name, params), NewNotification(name, params);
            r.id == id && r.name == n.name == CStr(name) && r.params == n.params == params
    ensures Parse(ToJson(NewRequest(id, name, params))) == NewRequest(id, name, params) <==> CStr(name) != ""
    ensures Parse(ToJson(NewNotification(name, params))) == NewNotification(name, params) <==> CStr(name) != ""
  {
    RoundTripExactly(NewRequest(id, name, params));
    RoundTripExactly(NewNotification(name, params));
  }
}
