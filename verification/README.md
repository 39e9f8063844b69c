# RTTR-RPC in Dafny

RTTR-RPC binds reflected C++ objects to JSON-RPC 2.0. This project models its logic on JSON
values, from the reader and writer of reflected objects up to the network sessions, and proves
what that logic promises. Code that changes things step by step is modelled by methods and
classes that do the same; each is proved against a specification function or relation, and the
theorems are about that specification.

| file | models |
|---|---|
| `json_values.dfy`, `reflection.dfy` | JSON values; types, values and the rules of the reflection library |
| `from_json.dfy`, `from_json_properties.dfy`, `from_json_outcome.dfy` | the merging reader; what merging keeps; idempotence; what stands at each place afterwards |
| `to_json.dfy`, `round_trip.dfy` | the writer; writer and reader put together |
| `http_session.dfy`, `http_session_runs.dfy` | the pipelining HTTP session; all its runs |
| `websocket_session.dfy`, `websocket_session_runs.dfy` | the WebSocket session with its keep-alive timer; all its runs |
| `parameter.dfy`, `method.dfy`, `published_types.dfy` | JSON Schema generation with its memo table; argument binding; what is published against what is read and written |
| `service.dfy`, `arguments.dfy`, `concurrent_dispatch.dfy` | calls and the arguments that their code gets; overload dispatch; any number of threads dispatching to one service, and that they all end |
| `message.dfy`, `jsonrpc.dfy`, `repository.dfy` | messages, printing and parsing; services, routing and replies |

## Stated assumptions

Rules of the libraries that the code calls are definitions, not axioms, so that they can be read
and judged:

- A failed `convert` leaves the target alone. Conversions between JSON and a type of the same
  kind are range checked; any other conversion (a number from a string, say) is an arbitrary
  function `otherConversion` of which only well-typed results are used.
- `set_value` with an argument that is invalid or of the wrong type does nothing; `insert` on an
  associative view keeps an existing key; resizing a sequence keeps its first elements and
  default-constructs new ones.
- A class registers each property name once (`Registered`, `WorldOk`), and the round trip asks
  that default-constructed objects have empty associative containers (`StartsUnfilled`).
- The schema recursion has no guard against a class that holds itself through its properties, so
  schema theorems ask for a rank that falls along the property graph (`Ranked`); different
  classes have different names (`NamesApart`).
- The reflection library invokes a method when every argument has its parameter's type and every
  parameter without an argument has a default. Parameters are numbered in order (`Numbered`) and
  defaults form a suffix (`DefaultsAreSuffix`), as C++ has it.
- The text that a class without properties converts to, if any, is an arbitrary function `text`.
- Asynchronous operations are counters of what is outstanding; the environment completes them in
  any order, with any outcome, at any time. Whether a response ends the connection (`need_eof`)
  is an arbitrary boolean of each exchange.

## Where the code differs from what is promised

- A request's id is read into a 32-bit `int`. A wider integer id comes back wrapped, so the reply
  does not echo it as section 5 of JSON-RPC 2.0 demands: `AnswerEchoesIdExactly` says exactly when
  it does.
- Batches are parsed, but the repository answers every batch with one invalid-request error and
  executes nothing (`Serve`).
- The round trip of messages holds exactly for `Survives`: a printed error response, or a response
  with a null id, is not parsed back to itself (`JsonRpc.RoundTripExactly`).
- A notification is never left without an answer, as section 4.1 of JSON-RPC 2.0 demands. A failed
  one is answered with its error; the result of a successful one is parsed as if it were a whole
  response, which ends in an exception that nothing catches unless the result is null or looks
  like a response (`ProcessMessage`).
- Maps and sets of types that the reader cannot build (containers, for one) are lost on reading, and
  associative containers inside sequences are lost on writing (`OtherMapsAreLost`,
  `OtherSetsAreLost`, `SequencesOfMapsAreLost`).
- The definition published for a class requires every property, also those that the writer leaves
  out (`WrittenObjectHasRequiredExactly`), and containers are published as objects but written as
  arrays: `WrittenIsValidExactly` says exactly which values are valid against their own schema.
- A response that ends the connection stays at the front of the queue, and responses queued behind
  it are never sent: `AllDeliveredExactly` says exactly when every request is answered.
- The assertion in the WebSocket ping handler can fail: `PingsCanOverlap` gives the run,
  `AssertionFailsExactly` the condition on each run.
- The check for extra parameters inside the positional loop never fires
  (`ExtraInsideLoopIsUnreachable`), and one factory function for parameter errors uses the
  internal-error code.

## Model

| member | source | states |
|---|---|---|
| Reflection.Convert | src/io/from_json.cpp:23-57 | only a scalar converts, and what it converts to is a value of the target type |
| Reflection.NameRoundTrip | src/io/to_json.cpp:53-67 | reading the name written for an enumerator gives that enumerator, when names are registered once |
| Reflection.DefaultHasType | src/io/from_json.cpp:62 | what a resized sequence puts into new slots is a value of the element type |
| FromJson.WriteArrayRecursively | src/io/from_json.cpp:61-81 | the view ends as the old elements, cut or extended to the array's length, each merged with its own array element; skipped elements stay |
| FromJson.ExtractValue | src/io/from_json.cpp:83-99 | a fresh value: the converted scalar, a default-constructed object merged with the JSON, the scalar under its own type, or nothing |
| FromJson.WriteAssociativeViewRecursively | src/io/from_json.cpp:101-123 | the container ends as the fold of insert-if-absent over the array, elements that cannot be read being skipped |
| FromJson.SetFromJson | src/io/from_json.cpp:131-166 | one property is replaced by its merge with the JSON, all others are untouched |
| FromJson.FromJsonRecursively | src/io/from_json.cpp:127-168 | the instance ends as the merge of its old value with the object: a loop over properties computes the field-wise merge |
| FromJson.FieldsMergedIsMergeObject | src/io/from_json.cpp:131-136 | looking each property up in the JSON, in registration order, comes to merging field by field |
| FromJsonProperties.MergeKeepsType | src/io/from_json.cpp:127-168 | merging any JSON of any shape keeps the static type at every depth |
| FromJsonProperties.MergeSeqKeepsType | src/io/from_json.cpp:61-81 | so does merging an array into a sequence, growing or shrinking it |
| FromJsonProperties.MergeObjectKeepsType | src/io/from_json.cpp:127-168 | so does merging an object into a class instance |
| FromJsonProperties.MergeAssocKeepsType | src/io/from_json.cpp:101-123 | so does inserting any array into an associative container |
| FromJsonProperties.ExtractHasType | src/io/from_json.cpp:83-99 | a fresh value that claims the type asked for has it |
| FromJsonProperties.MergeIdempotent | src/io/from_json.cpp:127-168 | merging the same JSON, of any shape, a second time changes nothing |
| FromJsonProperties.MergeSeqIdempotent | src/io/from_json.cpp:61-81 | also through sequences that grow, shrink or skip elements |
| FromJsonProperties.MergeObjectIdempotent | src/io/from_json.cpp:127-168 | also through objects |
| FromJsonProperties.StepAbsorbed | src/io/from_json.cpp:101-123 | once an element was met, meeting it again changes nothing, whatever was inserted in between |
| FromJsonProperties.MergeAssocAbsorbs | src/io/from_json.cpp:101-123 | so an associative container that took the whole array takes any part of it again without change |
| FromJsonProperties.UnnamedIsUnchanged | src/io/from_json.cpp:131-135 | a property that the JSON does not name keeps its value, at any depth of nested objects and of elements that sequences keep |
| FromJsonOutcome.MergedAt | src/io/from_json.cpp:127-168 | for any JSON and any instance, at every place of properties and elements that both have: a scalar that converts is what stands there; null, a scalar that does not convert, and arrays or objects that do not fit the type leave what was there; a sequence has the array's length; maps and sets are merged as the next two rows say |
| FromJsonOutcome.MapMergedExactly | src/io/from_json.cpp:101-115 | old entries stay as they are; a new key is there exactly when some element of the array offers it, with the value of the first that does |
| FromJsonOutcome.SetMergedExactly | src/io/from_json.cpp:116-121 | a key is in the set exactly when it was, or when an element that is no object converts to it |
| FromJsonOutcome.GrowthAndShrinkage | src/io/from_json.cpp:62-66 | merging a longer array is merging it into the sequence with zero, empty or default-constructed elements put behind; merging a shorter one, into the sequence cut to its length |
| FromJsonOutcome.FreshExactly | src/io/from_json.cpp:83-99 | exactly which JSON becomes a fresh value of the type, which nothing at all, and which a scalar that keeps its own type |
| FromJsonOutcome.OwnKindExactly | src/io/from_json.cpp:23-57 | an integer is taken as it is when it is in the type's range and refused otherwise; booleans, strings and floats are taken as they are, a name as its enumerator |
| ToJson.WriteArray | src/io/to_json.cpp:78-99 | the array has the JSON of each element, in order |
| ToJson.WriteKeys | src/io/to_json.cpp:109-113 | the array has the JSON of each key, each once, in whatever order the set iterates |
| ToJson.WriteEntries | src/io/to_json.cpp:114-122 | the array has a key-value object for each entry, each once, in whatever order the map iterates |
| ToJson.WriteAssociativeContainer | src/io/to_json.cpp:103-125 | the same for either kind of container |
| ToJson.WriteVariant | src/io/to_json.cpp:128-155 | the JSON of any value: scalar, array, container, object, or, without properties, the text it converts to or null |
| ToJson.ToJsonRecursively | src/io/to_json.cpp:164-188 | an object with exactly the serialised properties, each under its name with its own JSON |
| RoundTrip.RoundTripExactly | src/io/from_json.cpp:127-168 | merging the JSON of one instance into another of its class makes them agree in all that is serialised if and only if the target's containers hold no entries that would have to go |
| RoundTrip.RoundTripIntoUnfilled | src/io/from_json.cpp:61-168 | in particular into every target with empty associative containers, and then, when every property is serialised, the target equals the source |
| RoundTrip.CopyThroughJson | src/io/to_json.cpp:164-188 | writer and reader run one after the other do just that to the target |
| RoundTrip.PropertyRoundTrip | src/io/from_json.cpp:136-166 | the exact condition for one property of any supported type |
| RoundTrip.ObjectRoundTrip | src/io/from_json.cpp:155-160 | the exact condition for a nested object |
| RoundTrip.SeqRoundTrip | src/io/from_json.cpp:61-81 | the exact condition for a sequence, nested ones included: slots that are new impose none |
| RoundTrip.EntriesRead | src/io/from_json.cpp:101-115 | reading a written map adds the written entries to the target's own, which win |
| RoundTrip.KeysRead | src/io/from_json.cpp:116-121 | reading a written set gives the union |
| RoundTrip.ExtractRoundTrip | src/io/from_json.cpp:83-99 | a key or mapped value built afresh agrees with the one written, and equals it when nothing is left out |
| RoundTrip.CompleteAgreementIsEquality | src/io/to_json.cpp:170-172 | where no property is left out, agreement is equality |
| RoundTrip.UnfilledIsMergeable | src/io/from_json.cpp:101-123 | a target with empty containers meets the exact condition |
| RoundTrip.AtomRoundTrip | src/io/to_json.cpp:25-74 | a written scalar converts back to itself |
| RoundTrip.UnnamedEnumerators | src/io/to_json.cpp:53-65 | an enumerator without a name is written as its number; a negative one as null, which leaves every target unchanged |
| RoundTrip.MapRoundTrip | src/io/from_json.cpp:146-150 | the exact condition for a map: the target's entries are entries of the source, with agreeing values |
| RoundTrip.SetRoundTrip | src/io/from_json.cpp:146-150 | the exact condition for a set: the target's keys are keys of the source |
| RoundTrip.OthersAreNotExtracted | src/io/from_json.cpp:83-99 | outside the types that the reader can build (containers, classes it cannot construct, classes without properties whose text does not convert back), nothing is read from a written value |
| RoundTrip.OtherMapsAreLost | src/io/from_json.cpp:104-115 | a written map whose keys or mapped values are of such a type leaves every target unchanged |
| RoundTrip.OtherSetsAreLost | src/io/from_json.cpp:104-121 | a written set whose keys are not written as scalars that convert back leaves every target unchanged |
| RoundTrip.SequencesOfMapsAreLost | src/io/to_json.cpp:91-95 | a written sequence of containers restores the length and no entry |
| HttpSession.ResponseQueue.OnWrite | src/beast/http_session.cpp:94-101 | drops the front, starts writing the next, and reports whether the queue had been full |
| HttpSession.ResponseQueue.Push | src/beast/http_session.cpp:105-127 | appends, and starts writing exactly when the queue was empty |
| HttpSession.HandleRequest | src/beast/http_session.cpp:20-64 | sends exactly one response on every path, by request method |
| HttpSession.Session.Run | src/beast/http_session.cpp:140-150 | the session starts with one timer wait and one read outstanding |
| HttpSession.Session.DoRead | src/beast/http_session.cpp:152-163 | starts one read and moves the deadline fifteen seconds on |
| HttpSession.Session.OnTimerDone | src/beast/http_session.cpp:166-185 | the whole new state after a timer wait, on every branch |
| HttpSession.Session.OnReadDone | src/beast/http_session.cpp:187-216 | the whole new state after a read: aborted, end of stream, error, upgrade, or a request answered and perhaps another read |
| HttpSession.Session.OnWriteDone | src/beast/http_session.cpp:218-237 | the whole new state after a write: failed, closing, or the next write and perhaps another read |
| HttpSession.Session.DoClose | src/beast/http_session.cpp:239-245 | shuts down sending and changes nothing else |
| HttpSessionRuns.StepKeepsInv | src/beast/http_session.cpp:187-237 | every completion, with any outcome, keeps the session's invariant |
| HttpSessionRuns.RunKeepsInv | src/beast/http_session.cpp:140-245 | hence the invariant holds on every run |
| HttpSessionRuns.PipeliningConserves | src/beast/http_session.cpp:94-127 | on every run, what was delivered followed by what is queued is the answers to the requests that arrived on it, in order of arrival, none lost and none twice (section 6.3.2 of RFC 7230) |
| HttpSessionRuns.EachRequestIsAnswered | src/beast/http_session.cpp:33-63 | on every run the responses delivered and queued are one for each request that arrived: status 200 with the JSON-RPC reply for POST, 200 and empty for OPTIONS, 400 with a complaint for anything else |
| HttpSessionRuns.BoundedAndBusy | src/beast/http_session.cpp:88-101 | on every run at most one read and one write are outstanding and the queue holds at most 8; until an exit, a read is outstanding exactly below 8 and a write exactly when the queue is not empty, so one of them always is |
| HttpSessionRuns.ReadStopIsPermanent | src/beast/http_session.cpp:187-208 | after end of stream, upgrade or a failed read no read is started and no request taken, whatever follows |
| HttpSessionRuns.WriteStopIsPermanent | src/beast/http_session.cpp:218-230 | after a closing response or a failed write no write is started; requests that still arrive are queued one entry each, up to 8 |
| HttpSessionRuns.PendingWritesComplete | src/beast/http_session.cpp:92-101 | while writing has not stopped, successful writes deliver the front of the queue, up to and including the first response that closes the connection |
| HttpSessionRuns.ClosingResponseIsLast | src/beast/http_session.cpp:226-230 | on every run nothing behind a queued response that closes the connection is delivered |
| HttpSessionRuns.AllDeliveredExactly | src/beast/http_session.cpp:218-237 | some run delivers the answers to all requests read so far if and only if no queued response but the last closes the connection; as many successful writes as the queue is long are then such a run |
| HttpSessionRuns.TimerClosesExactly | src/beast/http_session.cpp:166-185 | the timer closes the socket exactly fifteen seconds or more after the last read was started and never after an upgrade; otherwise it keeps waiting |
| HttpSessionRuns.AlwaysReclaimed | src/beast/http_session.cpp:166-185 | on every run, unless the timer failed, the socket was closed or the connection upgraded, a timer wait is pending that closes the socket fifteen seconds after the last read, also when reader and writer have stopped |
| HttpSessionRuns.DeadlineExactly | src/beast/http_session.cpp:152-207 | on every run the deadline is fifteen seconds after the last read of the run was started, unless a request of the run asked for an upgrade, which marks it for good |
| HttpSessionRuns.ShutDownExactly | src/beast/http_session.cpp:187-245 | on every run sending is shut down exactly when the peer closed its side or a response that ends the connection went out |
| HttpSessionRuns.FailedTimerStops | src/beast/http_session.cpp:166-168 | a wait that fails is the last one and closes nothing |
| WebSocketSession.Session.DoAccept | src/beast/websocket_session.h:23-37 | the session starts with one timer wait, a deadline and one handshake outstanding |
| WebSocketSession.Session.OnAcceptDone | src/beast/websocket_session.cpp:34-44 | a handshake opens the stream and starts a read, or ends the session |
| WebSocketSession.Session.OnTimerDone | src/beast/websocket_session.cpp:47-79 | the whole new state: error, ping, shutdown or another wait |
| WebSocketSession.Session.NoteActivity | src/beast/websocket_session.cpp:82-88 | activity resets the ping state and moves the deadline |
| WebSocketSession.Session.OnPingDone | src/beast/websocket_session.cpp:91-108 | the ping state after a ping completed, and whether the assertion failed |
| WebSocketSession.Session.OnReadDone | src/beast/websocket_session.cpp:123-160 | abort and close end the exchange; anything else counts as activity and starts writing one reply |
| WebSocketSession.Session.OnWriteDone | src/beast/websocket_session.cpp:162-177 | a written reply empties the buffer and starts the next read |
| WebSocketSessionRuns.StepKeepsInv | src/beast/websocket_session.cpp:34-177 | every completion, with any outcome, keeps the invariant: one timer wait while the timer lives, one of handshake, read and write outstanding, replies in order |
| WebSocketSessionRuns.TimerIsSound | src/beast/websocket_session.cpp:47-79 | on every run an open session is shut down only when some event of that run started a ping fifteen seconds or more before and nothing was heard from then on; otherwise one wait stays pending |
| WebSocketSessionRuns.SilenceIsBounded | src/beast/websocket_session.cpp:52-75 | a silent session is shut down by its second expiry, by its first when a ping already waits |
| WebSocketSessionRuns.NoTimerAfterShutDown | src/beast/websocket_session.cpp:64-74 | after shutdown the timer is never heard of again |
| WebSocketSessionRuns.RepliesInOrder | src/beast/websocket_session.cpp:123-177 | on every run, ended or not, what was sent is the replies to the messages read on it, in order, but for at most the last; until the end that one is missing exactly while it is written, and is what the buffer holds |
| WebSocketSessionRuns.DeadlineExactly | src/beast/websocket_session.cpp:55-88 | on every run the deadline is fifteen seconds after something was last heard, a ping was last started, or the session began |
| WebSocketSessionRuns.OpenExactly | src/beast/websocket_session.cpp:34-44 | on every run the stream is open exactly from a successful handshake to the peer's close |
| WebSocketSessionRuns.FailedTimerStops | src/beast/websocket_session.cpp:47-49 | a wait that fails is the last one and shuts nothing down |
| WebSocketSessionRuns.PromptPingsKeepAssertion | src/beast/websocket_session.cpp:90-108 | if each ping completes before the next starts, the assertion in the handler holds |
| WebSocketSessionRuns.OverlapBreaksAssertion | src/beast/websocket_session.cpp:90-108 | every run on which pings overlap, cut off at some point and followed by two completed pings, breaks the assertion |
| WebSocketSessionRuns.AssertionFailsExactly | src/beast/websocket_session.cpp:90-108 | a run breaks the assertion if and only if, after some ping was started on it, two pings complete before anything is heard from the peer |
| WebSocketSessionRuns.PingsCanOverlap | src/beast/websocket_session.cpp:55-63 | and from the start of a session such a run exists |
| Parameters.CreateParameterDescription | src/core/parameter.cpp:30-80 | the description does not depend on the table, and the table gains what describing the type collects |
| Parameters.CreateClassDefinition | src/core/parameter.cpp:90-117 | the definition is the one computed without a table; the table gains what the properties collect |
| Parameters.CollectKeepsClosed | src/core/parameter.cpp:41-47 | describing a type keeps the table closed, changes no entry, and adds exactly classes reachable from the type, itself included |
| Parameters.CollectPropertiesKeepsClosed | src/core/parameter.cpp:98-113 | the same for each prefix of a class's properties |
| Parameters.ClosedHasReachable | src/core/parameter.cpp:41-47 | a closed table that has a class has everything reachable from it |
| Parameters.TableIsExact | src/core/parameter.cpp:30-80 | starting from an empty table, the keys are exactly the names of the classes reachable from the types described, and every entry equals the memo-free definition |
| Parameters.OrderDoesNotMatter | src/core/parameter.cpp:45-47 | the final table depends neither on the order of the types nor on repetitions |
| Methods.CreateJsonSchema | src/core/method.cpp:177-214 | the schema is the one built from the descriptions and the table of all parameter and return types, under the name, signature and description of the method |
| Methods.SchemaIsClosedAndExact | src/core/method.cpp:187-208 | every `$ref` in parameters, result and definitions resolves, and the definitions are exactly the classes reachable from parameter and return types (section 8.3 of JSON Schema Core draft-07) |
| Methods.ParseNamedArguments | src/core/method.cpp:41-77 | verdict, bound vector and error of named binding, on every branch |
| Methods.ParseArrayArguments | src/core/method.cpp:79-123 | verdict, bound vector and error of positional binding, on every branch |
| Methods.NamedFromExactly | src/core/method.cpp:54-76 | named binding succeeds exactly when the parameters after the gap-free present prefix start with a default, or there are none, and every value of the prefix can be read; it then binds those values |
| Methods.NamedBindingMeetsSchema | src/core/method.cpp:52-76 | an object is accepted exactly when it has every name that the published schema requires and every value in the longest gap-free prefix can be read (section 6.5.3 of JSON Schema Validation draft-07) |
| Methods.PrefixMeetsRequired | src/core/method.cpp:189-205 | the schema's required list is met exactly when the first absent parameter, if any, has a default |
| Methods.PositionalAndNamedAgree | src/core/method.cpp:52-122 | the same leading arguments as array and as object get the same verdict and vector, as long as the arguments (section 4.2 of JSON-RPC 2.0) |
| Methods.ExtraInsideLoopIsUnreachable | src/core/method.cpp:95-108 | the error for extra parameters inside the loop cannot happen, and a bound vector is as long as the array |
| Arguments.PositionalVerdict | src/core/method.cpp:79-123 | what an array comes to: too long, the first unreadable position, not enough, or the values read from its places in order |
| Arguments.ArrayAcceptedExactly | src/core/method.cpp:138-165 | an overload accepts an array if and only if it is not too long, every argument can be made a value of its parameter's type, and the parameters left over have defaults |
| Arguments.ArrayArguments | src/core/method.cpp:152-165 | its code is run on the arguments in order, each made of its own place in the array |
| Arguments.NamedVerdict | src/core/method.cpp:41-77 | what an object comes to: no names, the first unreadable argument, the first missing one, or the values of the members named without a gap |
| Arguments.ObjectAcceptedExactly | src/core/method.cpp:142-165 | an overload accepts an object if and only if every parameter named without a gap can be made a value of its type and all others have defaults |
| Arguments.ObjectArguments | src/core/method.cpp:152-165 | its code is run on the arguments in the parameters' order, each made of the member of its name |
| Arguments.OtherParams | src/core/method.cpp:133-149 | without `params` the code is run without arguments, if all have defaults; a scalar is never accepted |
| Arguments.RefusalExactly | src/core/method.cpp:138-170 | the error of a refusal: the binding error, or, when the arguments were bound, that the method cannot be invoked |
| PublishedTypes.PublishedNamesAreRead | src/core/parameter.cpp:33-40 | the names published for an enumeration are exactly the strings read as one of its enumerators |
| PublishedTypes.PublishedScalarsExactly | src/core/parameter.cpp:49-70 | exactly which JSON is valid against what is published for a scalar: for an integer the numbers in its range, for an enumeration its names |
| PublishedTypes.PublishedVoidExactly | src/core/parameter.cpp:51-52 | what is published for `void` is null, and only that |
| PublishedTypes.ValidScalarIsRead | src/core/parameter.cpp:19-28 | what is valid is read as a value of the type; an integer is read exactly when it is valid, and as itself |
| PublishedTypes.ParametersArePublished | src/core/parameter.cpp:82-88 | there is an entry for each parameter and no other, valid for what its type's description is, with its name as description and a default exactly when it has one, which is that one |
| PublishedTypes.WrittenScalarFitsExactly | src/core/parameter.cpp:49-70 | a written scalar fits the description of its type, except for an enumerator without a name |
| PublishedTypes.WrittenObjectHasRequiredExactly | src/core/parameter.cpp:111-115 | a written object has all properties that its class's definition requires if and only if every property is serialised |
| PublishedTypes.WrittenIsValidExactly | src/core/parameter.cpp:30-117 | a written value is valid against the schema published for its type, references resolved, if and only if it holds no container, no property that is not serialised, no class without properties, no enumerator without a name and no float out of range |
| PublishedTypes.ResultIsValidExactly | src/core/method.cpp:173-211 | so a method's result, once written, is valid against the published schema of the result exactly then |
| Services.Service.ScanMethods | src/core/service.cpp:182-189 | methods are grouped by name, each group in registration order |
| Arguments.GroupedInOrder | src/core/service.cpp:182-189 | the overloads of a name are exactly the methods of that name, in strictly increasing order of registration |
| Services.Service.Invoke | src/core/method.cpp:129-175 | an overload runs exactly when it binds and can be invoked, to a result or to an exception; otherwise nothing changes and its error is reported |
| Services.Service.DispatchRequest | src/core/service.cpp:555-593 | instance, reply and executions after a dispatch: at most one execution, of the first overload that accepts |
| Services.FirstAcceptingIsFirst | src/core/service.cpp:580-585 | the search stops at an overload that accepts and before which none does |
| Services.DispatchIsFirstMatch | src/core/service.cpp:568-593 | the effect and result are those of the first overload that accepts; when none does, the instance is unchanged and each overload contributes exactly one error |
| ConcurrentDispatch.StepKeepsInv | src/core/service.cpp:566-593 | every step of every thread keeps the invariant: mutual exclusion, and an instance explained by a serial order |
| ConcurrentDispatch.RunKeepsInv | src/core/service.cpp:566-593 | hence it holds under every interleaving |
| ConcurrentDispatch.DispatchIsSerializable | src/core/method.cpp:158-165 | under every interleaving of any number of threads, instance and replies are those of the calls run one at a time in the order of their successful lock acquisitions, though one call may lock several times; failed calls fit in anywhere |
| ConcurrentDispatch.MutualExclusion | src/core/method.cpp:160-162 | at every moment at most one thread is inside an invocation |
| ConcurrentDispatch.NoDeadlock | src/core/method.cpp:160-162 | a thread that has not replied can move unless it waits for a held mutex; the holder is one of the threads and can move; so some thread can move as long as one has not replied |
| ConcurrentDispatch.DispatchEnds | src/core/service.cpp:577-593 | every schedule is finite, with at most five steps for each overload and one more for each call, and can be completed so that every thread has replied |
| ConcurrentDispatch.LostUpdateWithoutMutex | src/core/method.cpp:163-165 | without the mutex, any two threads about to invoke can lose the effect of one although both succeed |
| Messages.WrapExactly | src/jsonrpc/message.cpp:98-100 | an integer id always becomes a 32-bit value, its own exactly when it fits |
| Messages.FindDotFindsFirst | src/jsonrpc/request.cpp:122 | the search finds the first dot, exactly when there is one |
| Messages.ExtractServiceName | src/jsonrpc/request.cpp:119-128 | the two parts of a method name |
| Messages.ServiceNameSplits | src/jsonrpc/request.cpp:119-128 | joining a dot-free service name and any method name with a dot is undone by splitting |
| Messages.SplitExactly | src/jsonrpc/request.cpp:119-128 | a name with a dot is its two parts around the first one; a name without has two empty parts |
| Messages.CStrExactly | src/jsonrpc/request.cpp:14-15 | a name given to a constructor is kept up to its first NUL |
| Messages.ErrorPrintsExactly | src/jsonrpc/error.cpp:65-74 | a printed error has its code, its message and, unless it is null, its data, and different errors print differently |
| Messages.BatchToJson | src/jsonrpc/request.cpp:213-218 | a batch prints as the array of its messages, null when empty |
| JsonRpc.ParseBatch | src/jsonrpc/request.cpp:201-211 | a batch keeps the length and order of its array; an empty one is an invalid request |
| JsonRpc.ParsesExactly | src/jsonrpc/jsonrpc.cpp:54-72 | exactly which JSON values become a request, notification, response or batch, and what request they become (sections 4 to 6 of JSON-RPC 2.0) |
| JsonRpc.ResponsesExactly | src/jsonrpc/request.cpp:72-95 | exactly which JSON becomes a response, and which one: the result as it is, an error dropped |
| JsonRpc.RefusedExactly | src/jsonrpc/request.cpp:25-42 | the error code of everything that is not accepted, by what is wrong with it |
| JsonRpc.IdRoundTrip | src/jsonrpc/message.cpp:95-117 | printed ids are read back |
| JsonRpc.RoundTripExactly | src/jsonrpc/request.cpp:25-48 | parsing what was printed gives a message back, nested batches and derived names included, exactly when the message survives |
| JsonRpc.BatchRoundTrip | src/jsonrpc/request.cpp:201-218 | a batch comes back exactly when it is not empty and each of its messages does |
| JsonRpc.ConstructedCallsRoundTrip | src/jsonrpc/request.cpp:14-15 | calls made by the constructors come back exactly when their name, cut at the first NUL, is not empty |
| Repositories.CachedDescription | src/core/repository.cpp:21-49 | after any additions and removals the cached descriptor is the one rebuilt from the current services, from the first successful addition on; before it there are none |
| Repositories.FirstAdditionStands | src/core/repository.cpp:21-49 | after any additions and removals a name has a service exactly when some addition of it stands, and that one: an addition under a taken name changes nothing |
| Repositories.Repository.AddService | src/core/repository.cpp:21-37 | adds a service with a new, non-empty name and refreshes the cache, or changes nothing |
| Repositories.Repository.RemoveService | src/core/repository.cpp:39-49 | removes a known service and refreshes the cache, or changes nothing |
| Repositories.Repository.CreateServicesInfo | src/core/repository.cpp:106-113 | the description of each service under its name, whatever the order of iteration |
| Repositories.Repository.ProcessMessage | src/core/repository.cpp:67-104 | every routing path: each request gets one response under its own id unless its method raises an exception; a notification always gets a response (against section 4.1 of JSON-RPC 2.0) or, exactly when stated, ends in an uncaught exception; only the service asked for can change, and otherwise nothing is executed |
| Repositories.ServiceReplyToNotification | src/jsonrpc/request.cpp:140-150 | exactly which replies of a service to a notification end in an uncaught exception; every other one is answered by a response |
| Repositories.AnswerEchoesIdExactly | src/jsonrpc/request.cpp:97-110 | an answer prints with the version, exactly one of result and error, and the request's id, exactly when that is a string or 32-bit integer (section 5 of JSON-RPC 2.0) |
| Repositories.AccumulatedInOrder | src/core/service.cpp:577-593 | accumulated errors stand in the answer's message in the order of the overloads |
| Repositories.Serve | src/beast/http_session.cpp:48-52 | from JSON to JSON: a proper request gets as result what the first accepting overload returned, or the services' description for `__init__`; it gets an error with the code stated when service or method is unknown or no overload accepts; id, result and error as in the row on answers; an exception of the method goes uncaught; an array is answered as one invalid request and nothing is executed; a proper notification never goes without answer or exception |

## Left out

- Wrapper types (smart pointers, `std::reference_wrapper`) and derived types: values are modelled without aliasing, so two properties sharing one object are not; `VObj` has the properties of its static class.
- Nested views: a view into an element of a sequence is modelled by changing a copy and storing it back.
- Fixed-size arrays, multimaps and `char` (written as a boolean); types outside the reflected fragment, which the schema calls "array", "object" or "undefined".
- Floating-point rounding, NaN and infinities: floats are reals, and what a `float` holds is a predicate of the world.
- The order of members in a JSON object, and the order in which ordered containers iterate: the writer's promise is for every order.
- JSON text, BSON and CBOR, which the JSON library reads and writes.
- Class constructors with parameters or that return a wrapper: a class is either default-constructible to its own object or not constructible.
- `RoundTrip.RoundTripExactly`: values outside `Supported` are not covered by it. Containers of types that cannot be read back are covered by the negative results; enumerators without a name, whose numbers convert as the library has it, and keys with properties left out, of which several can be written alike, are not.
- Cyclic property graphs, on which the schema recursion does not stop; and the evaluation order of `defs[name] = create_class_definition(...)`, taken as right side first.
- The service description around the method schemas (title, version, repeated signatures), metadata scanning and log output; a service's description is an arbitrary JSON value. A return type's `$ref` resolves against the definitions under `params`, as published.
- The wording of errors: those that quote JSON text or a library's exception are parameters or a constant.
- `Services.Service.Invoke`: whether an invocation succeeds is taken to depend on the number and types of the arguments only.
- `ConcurrentDispatch.DispatchIsSerializable`: a result is taken as the JSON of its value at the end of the method; results that refer into the instance are converted after the mutex is released and are not modelled.
- Services declared thread safe dispatch without the mutex and get no guarantee; adding or removing services while dispatching is not modelled, as the repository has no lock.
- Sessions are taken to get a string from the JSON-RPC layer for each request: incoming response messages, for which there is no answer, and exceptions that escape from a method end the C++ handler and are left out of the session runs.
- `JsonRpc.ParsesExactly`: ids of errors raised while parsing are dropped, as the C++ code drops them.
- Parsing a message that has only an error: the classifier never takes one for a response.
- `HttpSession.HandleRequest`: of a response only status, body and whether it ends the connection; header fields, sockets, acceptor and strands are left out, and a handler runs to its end before the next.
- `WebSocketSession.Session.OnReadDone`: the failure on binary frames is reported and ignored, as in the C++ code; the reply is an arbitrary string of each event.
