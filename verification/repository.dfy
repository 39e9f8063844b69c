/** The repository: named services, the cached description of them all, and routing. */
module Repositories {
  import opened JsonValues
  import opened Reflection
  import opened Messages
  import opened JsonRpc
  import opened Methods
  import opened Services

  // ---------------------------------------------------------------------------------------
  // Adding and removing services
  // ---------------------------------------------------------------------------------------

  /** The services by name, with their descriptions, and the cached description of them all. */
  datatype Catalogue = Catalogue(infos: map<string, Json>, cached: Json)

  const EMPTY: Catalogue := Catalogue(map[], JNull)

  datatype Operation = Add(name: string, info: Json) | Remove(name: string)

  predicate Succeeds(c: Catalogue, op: Operation) {
    match op
    case Add(name, _) => name != "" && name !in c.infos
    case Remove(name) => name in c.infos
  }

  function Apply(c: Catalogue, op: Operation): Catalogue {
    if !Succeeds(c, op) then c
    else
      var infos := match op
        case Add(name, info) => c.infos[name := info]
        case Remove(name) => c.infos - {name};
      Catalogue(infos, JObject(infos))
  }

  function ApplyAll(ops: seq<Operation>): Catalogue {
    if ops == [] then EMPTY else Apply(ApplyAll(ops[..|ops| - 1]), ops[|ops| - 1])
  }

  /** Some operation of the sequence was an addition that went through. */
  predicate Added(ops: seq<Operation>) {
    exists i :: 0 <= i < |ops| && ops[i].Add? && Succeeds(ApplyAll(ops[..i]), ops[i])
  }

  /** After any sequence of additions and removals the cached description is the one rebuilt
      from the current services, exactly from the first successful addition on; before it there
      are no services and the description is null. */
  lemma {:induction false} CachedDescription(ops: seq<Operation>)
    ensures var c := ApplyAll(ops);
            if Added(ops) then c.cached == JObject(c.infos) else c == EMPTY
    ensures "" !in ApplyAll(ops).infos
  {
    if ops != [] {
      CachedDescription(ops[..|ops| - 1]);
      AddedSplits(ops);
    }
  }

  /** Operation `i` put the service called `name` there that is there now: a proper addition, at a
      time when the name was free, and not removed since. */
  predicate Stands(ops: seq<Operation>, name: string, i: nat) {
    && i < |ops| && ops[i].Add? && ops[i].name == name && name != ""
    && (forall r :: i < r < |ops| ==> ops[r] != Remove(name))
    && (forall k :: 0 <= k < i && ops[k].Add? && ops[k].name == name ==> RemovedBetween(ops, name, k, i))
  }

  predicate RemovedBetween(ops: seq<Operation>, name: string, k: nat, i: nat)
    requires k <= i <= |ops|
  {
    exists r :: k < r < i && ops[r] == Remove(name)
  }

  /** After any sequence of additions and removals a name has a service exactly when some addition
      stands, and then it has that one: a second addition under a taken name changes nothing. */
  lemma {:induction false} FirstAdditionStands(ops: seq<Operation>, name: string)
    ensures name in ApplyAll(ops).infos <==> exists i: nat :: Stands(ops, name, i)
    ensures forall i: nat :: Stands(ops, name, i) ==>
              name in ApplyAll(ops).infos && ApplyAll(ops).infos[name] == ops[i].info
  {
    if ops != [] {
      var init, last := ops[..|ops| - 1], ops[|ops| - 1];
      FirstAdditionStands(init, name);
      SomeStands(ops, name);
      forall i: nat | Stands(ops, name, i)
        ensures name in ApplyAll(ops).infos && ApplyAll(ops).infos[name] == ops[i].info
      {
        if i < |init| {
          StandsLonger(ops, name, i);
          assert ops[i] == init[i];
        } else {
          LastStands(ops, name);
        }
      }
    }
  }

  /** Whether some addition stands, by the last operation. */
  lemma SomeStands(ops: seq<Operation>, name: string)
    requires ops != []
    ensures var init, last := ops[..|ops| - 1], ops[|ops| - 1];
            (exists i: nat :: Stands(ops, name, i)) <==>
              || (last.Add? && last.name == name && name != "")
              || (last != Remove(name) && exists i: nat :: Stands(init, name, i))
  {
    var init, last := ops[..|ops| - 1], ops[|ops| - 1];
    LastStands(ops, name);
    if i: nat :| Stands(init, name, i) && last != Remove(name) {
      StandsLonger(ops, name, i);
      assert Stands(ops, name, i);
    }
    if i: nat :| Stands(ops, name, i) && i < |init| {
      StandsLonger(ops, name, i);
      assert Stands(init, name, i);
    }
  }

  lemma StandsLonger(ops: seq<Operation>, name: string, i: nat)
    requires i + 1 < |ops|
    ensures var init, last := ops[..|ops| - 1], ops[|ops| - 1];
            Stands(ops, name, i) <==> Stands(init, name, i) && last != Remove(name)
  {
    var init, last := ops[..|ops| - 1], ops[|ops| - 1];
    forall k: nat | k < i ensures RemovedBetween(ops, name, k, i) <==> RemovedBetween(init, name, k, i) {
      if r :| k < r < i && ops[r] == Remove(name) {
        assert init[r] == Remove(name);
      }
      if r :| k < r < i && init[r] == Remove(name) {
        assert ops[r] == Remove(name);
      }
    }
    if Stands(ops, name, i) {
      assert ops[|ops| - 1] != Remove(name);
      forall r | i < r < |init| ensures init[r] != Remove(name) {
        assert ops[r] != Remove(name);
      }
    }
  }

  /** The last operation stands when it is a proper addition of a name that no earlier one has. */
  lemma LastStands(ops: seq<Operation>, name: string)
    requires ops != []
    ensures var init, last := ops[..|ops| - 1], ops[|ops| - 1];
            Stands(ops, name, |init|) <==>
              last.Add? && last.name == name && name != "" && !exists i: nat :: Stands(init, name, i)
  {
    var init, last := ops[..|ops| - 1], ops[|ops| - 1];
    forall i: nat | Stands(init, name, i) ensures !Stands(ops, name, |init|) {
      assert ops[i] == init[i];
      NotRemovedSince(ops, name, i);
    }
    if !Stands(ops, name, |init|) && last.Add? && last.name == name && name != "" {
      var k :| 0 <= k < |init| && ops[k].Add? && ops[k].name == name && !RemovedBetween(ops, name, k, |init|);
      var i := EarliestUnremoved(init, name, k);
    }
  }

  lemma NotRemovedSince(ops: seq<Operation>, name: string, i: nat)
    requires ops != [] && Stands(ops[..|ops| - 1], name, i)
    ensures !RemovedBetween(ops, name, i, |ops| - 1)
  {
    var init := ops[..|ops| - 1];
    forall r | i < r < |init| ensures ops[r] != Remove(name) {
      assert init[r] == ops[r];
    }
  }

  lemma EarliestUnremoved(ops: seq<Operation>, name: string, k: nat) returns (i: nat)
    requires k < |ops| && ops[k].Add? && ops[k].name == name && name != ""
    requires forall r :: k < r < |ops| ==> ops[r] != Remove(name)
    ensures Stands(ops, name, i)
    decreases k
  {
    if m: nat :| m < k && ops[m].Add? && ops[m].name == name && !RemovedBetween(ops, name, m, k) {
      forall r | m < r < |ops| ensures ops[r] != Remove(name) {
        if r < k {
          assert !(m < r < k && ops[r] == Remove(name));
        }
      }
      i := EarliestUnremoved(ops, name, m);
    } else {
      i := k;
    }
  }

  lemma AddedSplits(ops: seq<Operation>)
    requires ops != []
    ensures var init, last := ops[..|ops| - 1], ops[|ops| - 1];
            Added(ops) <==> Added(init) || (last.Add? && Succeeds(ApplyAll(init), last))
  {
    var init, last := ops[..|ops| - 1], ops[|ops| - 1];
    if i :| 0 <= i < |init| && init[i].Add? && Succeeds(ApplyAll(init[..i]), init[i]) {
      assert ops[..i] == init[..i] && ops[i] == init[i];
    }
    if last.Add? && Succeeds(ApplyAll(init), last) {
      assert ops[|init|] == last && ops[..|init|] == init;
    }
    if i :| 0 <= i < |ops| && ops[i].Add? && Succeeds(ApplyAll(ops[..i]), ops[i]) && i < |init| {
      assert ops[..i] == init[..i] && ops[i] == init[i];
    }
  }

  class Repository {
    var services: map<string, Service>
    var servicesInfo: Json

    function Infos(): map<string, Json>
      reads this
    {
      map n | n in services :: services[n].serviceInfo
    }

    function Now(): Catalogue
      reads this
    {
      Catalogue(Infos(), servicesInfo)
    }

    constructor ()
      ensures Now() == EMPTY && services == map[]
    {
      services, servicesInfo := map[], JNull;
    }

    method AddService(s: Service) returns (ok: bool)
      modifies this
      ensures ok == Succeeds(old(Now()), Add(s.name, s.serviceInfo))
      ensures Now() == Apply(old(Now()), Add(s.name, s.serviceInfo))
      ensures services == if ok then old(services)[s.name := s] else old(services)
    {
      if s.name == "" {
        return false;
      }
      if s.name in services {
        return false;
      }
      ghost var before := Infos();
      services := services[s.name := s];
      assert Infos() == before[s.name := s.serviceInfo];
      servicesInfo := CreateServicesInfo();
      ok := true;
    }

    method RemoveService(name: string) returns (ok: bool)
      modifies this
      ensures ok == Succeeds(old(Now()), Remove(name))
      ensures Now() == Apply(old(Now()), Remove(name))
      ensures services == if ok then old(services) - {name} else old(services)
    {
      if name !in services {
        return false;
      }
      ghost var before := Infos();
      services := services - {name};
      assert Infos() == before - {name};
      servicesInfo := CreateServicesInfo();
      ok := true;
    }

    /** Visits the services in whatever order their table has. */
    method CreateServicesInfo() returns (j: Json)
      ensures j == JObject(Infos())
    {
      var infos: map<string, Json> := map[];
      var rest := services.Keys;
      while rest != {}
        invariant rest <= services.Keys && infos.Keys == services.Keys - rest
        invariant forall n :: n in infos ==> infos[n] == services[n].serviceInfo
        decreases |rest|
      {
        var n :| n in rest;
        infos := infos[n := services[n].serviceInfo];
        rest := rest - {n};
      }
      assert infos == Infos();
      j := JObject(infos);
    }

    /** Routing.  A request is answered under its own id, unless the method that it runs raises
        an exception; only the service asked for can change.  A notification is never left
        without an answer, as section 4.1 of JSON-RPC 2.0 demands, except by an exception that
        nothing catches. */
    method ProcessMessage(m: Message) returns (answer: Answer)
      requires forall n :: n in services ==> Registered(services[n].world)
      modifies (set n | n in services :: services[n])`inst, (set n | n in services :: services[n])`executed
      ensures m.Request? ==>
                if answer.Uncaught? then
                  && m.service in services && m.serviceMethod in services[m.service].methods
                  && var s := services[m.service];
                  Dispatch(s.world, s.methods[m.serviceMethod], old(s.inst), m.params).1 == Escaped(answer.what)
                else answer.Answered? && AnswersRequest(m, answer.message)
      ensures m.Request? || m.Notification? ==>
                && (m.name == "__init__" ==> answer == CreateResponse(m, servicesInfo))
                && (m.name != "__init__" && (m.service == "" || m.service !in services) ==>
                     answer.Answered? && answer.message.Response? && answer.message.error.Some?
                     && answer.message.error.value.code == METHOD_NOT_FOUND)
      ensures (m.Request? || m.Notification?) && m.name != "__init__" && m.service != "" && m.service in services ==>
                var s := services[m.service];
                var (inst, reply) :=
                  if m.serviceMethod in s.methods
                  then Dispatch(s.world, s.methods[m.serviceMethod], old(s.inst), m.params)
                  else (old(s.inst), MethodMissing);
                answer == ReplyMessage(m, s.name, s.errorText, reply) && s.inst == inst
                && forall n :: n in services && services[n] != s ==> services[n].inst == old(services[n].inst)
      ensures m.Batch? || m.Error? ==> answer == Answered(INVALID_REQUEST_MESSAGE)
      ensures m.Response? ==> answer == NoAnswer
      ensures m.Notification? ==>
                && answer != NoAnswer
                && (answer.Uncaught? <==>
                     if m.name == "__init__" then !servicesInfo.JNull? && !ProperResponse(servicesInfo)
                     else
                       && m.service != "" && m.service in services && m.serviceMethod in services[m.service].methods
                       && var s := services[m.service];
                       var reply := Dispatch(s.world, s.methods[m.serviceMethod], old(s.inst), m.params).1;
                       reply.Escaped?
                       || (reply.Succeeded? && !reply.result.JNull? && !ProperResponse(reply.result)))
      ensures (m.Response? || m.Batch? || m.Error? || m.name == "__init__" || m.service == ""
               || m.service !in services) ==>
                forall n :: n in services ==>
                  services[n].inst == old(services[n].inst) && services[n].executed == old(services[n].executed)
    {
      if m.Response? {
        return NoAnswer;
      }
      if !m.Request? && !m.Notification? {
        return Answered(INVALID_REQUEST_MESSAGE);
      }
      if m.name == "__init__" {
        return CreateResponse(m, servicesInfo);
      }
      if m.service == "" {
        return Answered(CreateErrorResponse(m, ErrorInfo(METHOD_NOT_FOUND, "empty service name", JNull)));
      }
      if m.service !in services {
        return Answered(
            CreateErrorResponse(m, ErrorInfo(METHOD_NOT_FOUND, "service " + m.service + " not found", JNull)));
      }
      var s := services[m.service];
      var reply := s.DispatchRequest(m.serviceMethod, m.params);
      if m.Notification? {
        ServiceReplyToNotification(m, s.name, s.errorText, reply);
      }
      answer := ReplyMessage(m, s.name, s.errorText, reply);
    }
  }

  /** What becomes of a message: an answer, none, or an exception that nothing catches. */
  datatype Answer = Answered(message: Message) | NoAnswer | Uncaught(what: string)

  /** The answer made of a service's reply. */
  function ReplyMessage(m: Message, name: string, text: CallError -> string, reply: Reply): Answer
    requires m.Request? || m.Notification?
  {
    match reply
    case Succeeded(result) => CreateResponse(m, result)
    case Escaped(what) => Uncaught(what)
    case MethodMissing =>
      var missing := "Service: " + name + " - cannot find requested method";
      Answered(CreateErrorResponse(m, ErrorInfo(METHOD_NOT_FOUND, missing, JNull)))
    case FailedAlone(error) => Answered(CreateErrorResponse(m, ErrorInfo(INTERNAL_ERROR, text(error), JNull)))
    case FailedAll(errors) =>
      Answered(CreateErrorResponse(m, ErrorInfo(METHOD_NOT_FOUND, Accumulated(name, text, errors), JNull)))
  }

  function ErrorLine(name: string, text: CallError -> string, error: CallError): string {
    "Service: " + name + " - method cannot be invoked: " + text(error) + "\n"
  }

  function ErrorLines(name: string, text: CallError -> string, errors: seq<CallError>): seq<string> {
    seq(|errors|, i requires 0 <= i < |errors| => ErrorLine(name, text, errors[i]))
  }

  function Streamed(lines: seq<string>): string {
    if lines == [] then "" else Streamed(lines[..|lines| - 1]) + lines[|lines| - 1]
  }

  function Accumulated(name: string, text: CallError -> string, errors: seq<CallError>): string {
    Streamed(ErrorLines(name, text, errors))
  }

  /** Lines written to the stream one after the other stand in it in this order. */
  lemma {:induction false} StreamedInOrder(lines: seq<string>, more: seq<string>)
    ensures Streamed(lines + more) == Streamed(lines) + Streamed(more)
    ensures |lines| == 1 ==> Streamed(lines) == lines[0]
    decreases more
  {
    if more == [] {
      assert lines + more == lines;
    } else {
      var all, init := lines + more, more[..|more| - 1];
      assert all[..|all| - 1] == lines + init;
      StreamedInOrder(lines, init);
    }
  }

  /** The errors of several overloads are accumulated in the order of the overloads, a line each. */
  lemma AccumulatedInOrder(name: string, text: CallError -> string, errors: seq<CallError>, more: seq<CallError>)
    ensures Accumulated(name, text, errors + more) == Accumulated(name, text, errors) + Accumulated(name, text, more)
    ensures |errors| == 1 ==> Accumulated(name, text, errors) == ErrorLine(name, text, errors[0])
  {
    assert ErrorLines(name, text, errors + more) == ErrorLines(name, text, errors) + ErrorLines(name, text, more);
    StreamedInOrder(ErrorLines(name, text, errors), ErrorLines(name, text, more));
  }

  function CreateErrorResponse(m: Message, error: ErrorInfo): Message
    requires m.Request? || m.Notification?
  {
    Response(if m.Request? then m.id else IdNull, JNull, Some(error))
  }

  /** A notification has no id to answer to: its result is taken for the JSON of a whole
      response, and null makes a response with the default error. */
  function CreateResponse(m: Message, result: Json): Answer
    requires m.Request? || m.Notification?
  {
    if m.Request? then Answered(Response(m.id, result, None))
    else if result.JNull? then
      Answered(Response(IdNull, JNull, Some(ErrorInfo(INTERNAL_ERROR, "Internal error", JNull))))
    else
      match ParseResponse(result)
      case Ok(response) => Answered(response)
      case Thrown(info) => Uncaught(info.message)
  }

  // ---------------------------------------------------------------------------------------
  // Every request is answered
  // ---------------------------------------------------------------------------------------

  predicate AnswersRequest(m: Message, answer: Message)
    requires m.Request?
  {
    answer.Response? && answer.id == m.id
  }

  /** Whatever JSON is taken for a request with a non-null id, every answer to it prints with
      the version, exactly one of result and error, and an id that is the request's own exactly
      when that is a string or a 32-bit integer; a wider integer comes back wrapped. */
  lemma AnswerEchoesIdExactly(j: Json, answer: Message)
    requires Parse(j).Request? && !j.members["id"].JNull? && AnswersRequest(Parse(j), answer)
    ensures var out := ToJson(answer);
            && Member(out, "jsonrpc") == JString("2.0")
            && (Has(out, "result") <==> !Has(out, "error"))
            && Has(out, "id")
            && (Member(out, "id") == j.members["id"] <==> (j.members["id"].JInt? ==> Fits32(j.members["id"].n)))
            && (j.members["id"].JInt? ==> Member(out, "id") == JInt(Wrap32(j.members["id"].n)))
  {
    ParsesExactly(j);
    var id := j.members["id"];
    if id.JInt? {
      WrapExactly(id.n);
    }
    ResponseShape(answer.id, answer.result, answer.error);
  }

  lemma ResponseShape(id: Id, result: Json, error: Option<ErrorInfo>)
    ensures var out := JObject(ResponseToJson(id, result, error));
            && Member(out, "jsonrpc") == VERSION
            && (Has(out, "id") <==> !id.IdNull?) && Member(out, "id") == IdToJson(id)
            && (Has(out, "error") <==> error.Some?) && (Has(out, "result") <==> error.None?)
  {
  }

  // ---------------------------------------------------------------------------------------
  // Notifications
  // ---------------------------------------------------------------------------------------

  /** What a service's reply to a notification comes to: a failure is answered with its error, and
      a result by chance, when it is null or happens to look like a response; any other result,
      like an exception of the method, ends in an exception that nothing catches. */
  lemma ServiceReplyToNotification(m: Message, name: string, text: CallError -> string, reply: Reply)
    requires m.Notification?
    ensures var answer := ReplyMessage(m, name, text, reply);
            && answer != NoAnswer
            && (answer.Uncaught? <==>
                 reply.Escaped? || (reply.Succeeded? && !reply.result.JNull? && !ProperResponse(reply.result)))
            && (answer.Answered? && !reply.Succeeded? ==>
                 answer.message.Response? && answer.message.id == IdNull && answer.message.error.Some?)
            && (reply.Succeeded? && reply.result.JNull? ==>
                 answer == Answered(Response(IdNull, JNull, Some(ErrorInfo(INTERNAL_ERROR, "Internal error", JNull)))))
            && (reply.Succeeded? && ProperResponse(reply.result) ==>
                 var id := ParseId(reply.result.members["id"]).value;
                 answer == Answered(Response(id, Member(reply.result, "result"), None)))
  {
    if reply.Succeeded? {
      ResponsesExactly(reply.result);
    }
  }

  // ---------------------------------------------------------------------------------------
  // From JSON to JSON
  // ---------------------------------------------------------------------------------------

  predicate HasResult(out: Option<Json>, result: Json) {
    out.Some? && Has(out.value, "result") && !Has(out.value, "error") && Member(out.value, "result") == result
  }

  predicate HasError(out: Option<Json>, code: int) {
    && out.Some? && Has(out.value, "error") && !Has(out.value, "result")
    && Member(Member(out.value, "error"), "code") == JInt(code)
  }

  /** Overload `i` accepts, and none before it does. */
  predicate IsFirst(w: World, os: seq<Overload>, params: Json, i: nat) {
    i < |os| && Accepts(w, os[i], params) && forall k :: 0 <= k < i ==> !Accepts(w, os[k], params)
  }

  /** The first overload that accepts has run, and what it returned is the result, or what it
      raised went uncaught; when none accepts nothing has run, and the answer is an error. */
  ghost predicate ServedBy(
      w: World, os: seq<Overload>, params: Json, before: Value, after: Value, answer: Answer, out: Option<Json>)
  {
    && (forall i: nat :: IsFirst(w, os, params, i) ==>
         var (inst, outcome) := Execute(w, os[i], before, params);
         && after == inst
         && (outcome.Returned? ==> HasResult(out, outcome.result))
         && (outcome.Raised? ==> answer == Uncaught(outcome.what)))
    && ((forall k :: 0 <= k < |os| ==> !Accepts(w, os[k], params)) ==>
         after == before && HasError(out, if |os| == 1 then INTERNAL_ERROR else METHOD_NOT_FOUND))
  }

  lemma ReplyServes(
      w: World, os: seq<Overload>, before: Value, m: Message, name: string, text: CallError -> string,
      out: Option<Json>)
    requires m.Request?
    requires var answer := ReplyMessage(m, name, text, Dispatch(w, os, before, m.params).1);
             out == if answer.Answered? then Some(ToJson(answer.message)) else None
    ensures var (after, reply) := Dispatch(w, os, before, m.params);
            ServedBy(w, os, m.params, before, after, ReplyMessage(m, name, text, reply), out)
  {
    FirstAcceptingIsFirst(w, os, m.params);
    forall i: nat | IsFirst(w, os, m.params, i) ensures FirstAccepting(w, os, m.params) == i {
      FirstAcceptingUnique(w, os, m.params, i);
    }
    var answer := ReplyMessage(m, name, text, Dispatch(w, os, before, m.params).1);
    if answer.Answered? {
      ResponsePrints(answer.message.id, answer.message.result, answer.message.error);
    }
  }

  lemma ResponsePrints(id: Id, result: Json, error: Option<ErrorInfo>)
    ensures var out := Some(ToJson(Response(id, result, error)));
            if error.Some? then HasError(out, error.value.code) else HasResult(out, result)
  {
    if error.Some? {
      ErrorPrintsExactly(error.value, error.value);
    }
  }

  /** What a session does with a message's JSON: parse, process, print.  Every proper request with
      an id is answered by one response with exactly one of result and error, under its own id
      exactly when that is a string or a 32-bit integer, unless its method raises an exception; a
      batch, however proper its elements, is answered as one invalid request and nothing is
      executed.  A notification is never left without an answer. */
  method Serve(repo: Repository, j: Json) returns (answer: Answer, out: Option<Json>)
    requires forall n :: n in repo.services ==> Registered(repo.services[n].world)
    modifies (set n | n in repo.services :: repo.services[n])`inst
    modifies (set n | n in repo.services :: repo.services[n])`executed
    ensures out == if answer.Answered? then Some(ToJson(answer.message)) else None
    ensures ProperCall(j) && ProperId(j) && !j.members["id"].JNull? ==>
              if answer.Uncaught? then
                var m := Parse(j);
                && m.Request? && m.service in repo.services && m.serviceMethod in repo.services[m.service].methods
                && var s := repo.services[m.service];
                Dispatch(s.world, s.methods[m.serviceMethod], old(s.inst), m.params).1 == Escaped(answer.what)
              else
                && out.Some? && Member(out.value, "jsonrpc") == JString("2.0")
                && (Has(out.value, "result") <==> !Has(out.value, "error"))
                && Has(out.value, "id")
                && (Member(out.value, "id") == j.members["id"]
                    <==> (j.members["id"].JInt? ==> Fits32(j.members["id"].n)))
    ensures j.JArray? ==>
              && out == Some(ToJson(INVALID_REQUEST_MESSAGE))
              && forall n :: n in repo.services ==>
                   && repo.services[n].inst == old(repo.services[n].inst)
                   && repo.services[n].executed == old(repo.services[n].executed)
    ensures ProperCall(j) && !Has(j, "id") ==> !answer.NoAnswer?
    ensures ProperCall(j) && ProperId(j) ==>
              var name := j.members["method"].s;
              if name == "__init__" then HasResult(out, repo.servicesInfo)
              else if ServiceOf(name) == "" || ServiceOf(name) !in repo.services then HasError(out, METHOD_NOT_FOUND)
              else
                var s := repo.services[ServiceOf(name)];
                if ServiceMethodOf(name) !in s.methods then HasError(out, METHOD_NOT_FOUND) && s.inst == old(s.inst)
                else
                  var os := s.methods[ServiceMethodOf(name)];
                  ServedBy(s.world, os, Member(j, "params"), old(s.inst), s.inst, answer, out)
  {
    var m := Parse(j);
    ParsesExactly(j);
    answer := repo.ProcessMessage(m);
    if ProperCall(j) && ProperId(j) && !j.members["id"].JNull? && answer.Answered? {
      AnswerEchoesIdExactly(j, answer.message);
    }
    out := if answer.Answered? then Some(ToJson(answer.message)) else None;
    if m.Request? && answer.Answered? {
      ResponsePrints(answer.message.id, answer.message.result, answer.message.error);
    }
    if m.Request? && m.name != "__init__" && m.service != "" && m.service in repo.services {
      var s := repo.services[m.service];
      if m.serviceMethod in s.methods {
        ReplyServes(s.world, s.methods[m.serviceMethod], old(s.inst), m, s.name, s.errorText, out);
      }
    }
  }
}
