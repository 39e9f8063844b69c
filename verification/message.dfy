/** JSON-RPC 2.0 messages, their parts, and their JSON form. */
module Messages {
  import opened JsonValues

  datatype Id = IdNull | IdInt(n: int) | IdString(s: string)

  datatype ErrorInfo = ErrorInfo(code: int, message: string, data: Json)

  /** `service` and `serviceMethod` are derived from the method name. */
  datatype Message =
    | Request(id: Id, name: string, service: string, serviceMethod: string, params: Json)
    | Notification(name: string, service: string, serviceMethod: string, params: Json)
    | Response(id: Id, result: Json, error: Option<ErrorInfo>)
    | Batch(entities: seq<Message>)
    | Error(info: ErrorInfo)

  const PARSE_ERROR := -32700
  const INVALID_REQUEST := -32600
  const METHOD_NOT_FOUND := -32601
  const INTERNAL_ERROR := -32603

  /** Stands for whatever the JSON library says about a value of the wrong kind. */
  const LIBRARY_TEXT: string := "type error"

  const INVALID_REQUEST_MESSAGE: Message := Error(ErrorInfo(INVALID_REQUEST, "Invalid request", JNull))

  // ---------------------------------------------------------------------------------------
  // Ids
  // ---------------------------------------------------------------------------------------

  /** Reading a JSON integer into a 32-bit `int`. */
  function Wrap32(n: int): int {
    (n + 0x8000_0000) % 0x1_0000_0000 - 0x8000_0000
  }

  predicate Fits32(n: int) {
    -0x8000_0000 <= n < 0x8000_0000
  }

  /** The 32-bit value that differs by a multiple of two to the 32: the number itself exactly when
      it fits. */
  lemma WrapExactly(n: int)
    ensures Fits32(Wrap32(n)) && (n - Wrap32(n)) % 0x1_0000_0000 == 0
    ensures Wrap32(n) == n <==> Fits32(n)
  {
  }

  function ParseId(j: Json): Option<Id> {
    if j.JNull? then Some(IdNull)
    else if j.JInt? then Some(IdInt(Wrap32(j.n)))
    else if j.JString? then Some(IdString(j.s))
    else None
  }

  function IdToJson(id: Id): Json {
    match id
    case IdNull => JNull
    case IdInt(n) => JInt(n)
    case IdString(s) => JString(s)
  }

  // ---------------------------------------------------------------------------------------
  // Names
  // ---------------------------------------------------------------------------------------

  /** A C string ends at its first NUL. */
  function CStr(s: string): string {
    if s == "" || s[0] == '\0' then "" else [s[0]] + CStr(s[1..])
  }

  /** The text up to the first NUL, or all of it. */
  lemma {:induction false} CStrExactly(s: string)
    ensures CStr(s) <= s && '\0' !in CStr(s)
    ensures |CStr(s)| == |s| || s[|CStr(s)|] == '\0'
  {
    if s != "" && s[0] != '\0' {
      CStrExactly(s[1..]);
      assert s == [s[0]] + s[1..];
    }
  }

  function FindDot(s: string): Option<nat> {
    if s == "" then None
    else if s[0] == '.' then Some(0)
    else
      var rest := FindDot(s[1..]);
      if rest.Some? then Some(rest.value + 1) else None
  }

  lemma {:induction false} FindDotFindsFirst(s: string)
    ensures FindDot(s).None? <==> '.' !in s
    ensures FindDot(s).Some? ==>
              FindDot(s).value < |s| && s[FindDot(s).value] == '.' && '.' !in s[..FindDot(s).value]
  {
    if s != "" && s[0] != '.' {
      FindDotFindsFirst(s[1..]);
      assert s == [s[0]] + s[1..];
      if FindDot(s).Some? {
        var k := FindDot(s[1..]).value;
        assert s[..k + 1] == [s[0]] + s[1..][..k];
      }
    }
  }

  function ServiceOf(name: string): string {
    FindDotFindsFirst(name);
    if FindDot(name).Some? then name[..FindDot(name).value] else ""
  }

  function ServiceMethodOf(name: string): string {
    FindDotFindsFirst(name);
    if FindDot(name).Some? then name[FindDot(name).value + 1..] else ""
  }

  method ExtractServiceName(name: string) returns (service: string, serviceMethod: string)
    ensures service == ServiceOf(name) && serviceMethod == ServiceMethodOf(name)
  {
    service, serviceMethod := "", "";
    var pos := FindDot(name);
    if pos.None? {
      return;
    }
    FindDotFindsFirst(name);
    service := name[..pos.value];
    serviceMethod := name[pos.value + 1..];
  }

  /** Splitting at the first dot undoes joining with one, for every service name without a dot,
      and only a name without a dot has no parts. */
  lemma ServiceNameSplits(service: string, serviceMethod: string)
    requires '.' !in service
    ensures var name := service + "." + serviceMethod;
            ServiceOf(name) == service && ServiceMethodOf(name) == serviceMethod
  {
    var name := service + "." + serviceMethod;
    FindDotFindsFirst(name);
    assert name[|service|] == '.';
    assert name[..|service|] == service && name[|service| + 1..] == serviceMethod;
  }

  /** A name with a dot is its two parts around the first one; a name without has none. */
  lemma SplitExactly(name: string)
    ensures '.' in name ==> name == ServiceOf(name) + "." + ServiceMethodOf(name) && '.' !in ServiceOf(name)
    ensures '.' !in name ==> ServiceOf(name) == "" && ServiceMethodOf(name) == ""
  {
    FindDotFindsFirst(name);
    if '.' in name {
      var k := FindDot(name).value;
      assert name == name[..k] + [name[k]] + name[k + 1..];
    }
  }

  function NewRequest(id: Id, name: string, params: Json): Message {
    var n := CStr(name);
    Request(id, n, ServiceOf(n), ServiceMethodOf(n), params)
  }

  function NewNotification(name: string, params: Json): Message {
    var n := CStr(name);
    Notification(n, ServiceOf(n), ServiceMethodOf(n), params)
  }

  // ---------------------------------------------------------------------------------------
  // Printing
  // ---------------------------------------------------------------------------------------

  const VERSION: Json := JString("2.0")

  function ErrorToJson(e: ErrorInfo): Json {
    var base := map["code" := JInt(e.code), "message" := JString(e.message)];
    JObject(if e.data.JNull? then base else base["data" := e.data])
  }

  /** A printed error has exactly its code, its message and, unless it is null, its data; different
      errors are printed differently. */
  lemma ErrorPrintsExactly(e: ErrorInfo, f: ErrorInfo)
    ensures var out := ErrorToJson(e);
            && Member(out, "code") == JInt(e.code) && Member(out, "message") == JString(e.message)
            && (Has(out, "data") <==> !e.data.JNull?) && Member(out, "data") == e.data
    ensures ErrorToJson(e) == ErrorToJson(f) <==> e == f
  {
    var out, other := ErrorToJson(e), ErrorToJson(f);
    assert Member(out, "code") == JInt(e.code) && Member(out, "message") == JString(e.message);
    assert Member(other, "code") == JInt(f.code) && Member(other, "message") == JString(f.message);
    assert Member(out, "data") == e.data && Member(other, "data") == f.data;
  }

  function CallToJson(name: string, params: Json): map<string, Json> {
    var base := map["jsonrpc" := VERSION, "method" := JString(name)];
    if params.JNull? then base else base["params" := params]
  }

  function ResponseToJson(id: Id, result: Json, error: Option<ErrorInfo>): map<string, Json> {
    var base := if id.IdNull? then map["jsonrpc" := VERSION] else map["jsonrpc" := VERSION]["id" := IdToJson(id)];
    if error.Some? then base["error" := ErrorToJson(error.value)] else base["result" := result]
  }

  function ToJson(m: Message): Json {
    match m
    case Request(id, name, _, _, params) => JObject(CallToJson(name, params)["id" := IdToJson(id)])
    case Notification(name, _, _, params) => JObject(CallToJson(name, params))
    case Response(id, result, error) => JObject(ResponseToJson(id, result, error))
    case Batch(entities) =>
      if entities == [] then JNull
      else JArray(seq(|entities|, i requires 0 <= i < |entities| => ToJson(entities[i])))
    case Error(info) => JObject(map["jsonrpc" := VERSION, "error" := ErrorToJson(info), "id" := JNull])
  }

  /** `json result; for each: result.push_back(...)`: null until the first element. */
  method BatchToJson(entities: seq<Message>) returns (j: Json)
    ensures j == ToJson(Batch(entities))
  {
    j := JNull;
    for i := 0 to |entities|
      invariant j == ToJson(Batch(entities[..i]))
    {
      var pushed := (if j.JArray? then j.elems else []) + [ToJson(entities[i])];
      assert entities[..i + 1][..i] == entities[..i];
      j := JArray(pushed);
    }
    assert entities[..|entities|] == entities;
  }
}
