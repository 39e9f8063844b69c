/**
 A service: its methods, grouped by name, and the search through the overloads of the method
 that a request asks for.
 */
module Services {
  import opened JsonValues
  import opened Reflection
  import opened Methods

  /** How a method's code ends: with a result, here as JSON, or by an exception. */
  datatype Outcome = Returned(result: Json) | Raised(what: string)

  /** A registered method with the code behind it: from the instance and the arguments to the
      changed instance and the outcome. */
  datatype Overload = Overload(info: MethodInfo, body: (Value, seq<Value>) -> (Value, Outcome))

  datatype CallError = Unbound(error: BindError) | CannotInvoke

  /** What a dispatch replies; a single method reports its own error, several report them all.
      An exception raised by a method is caught nowhere and escapes. */
  datatype Reply =
    | MethodMissing
    | Succeeded(result: Json)
    | Escaped(what: string)
    | FailedAlone(error: CallError)
    | FailedAll(errors: seq<CallError>)

  /** The reflection library invokes a method when every argument has its parameter's type and
      every parameter without an argument has a default value. */
  predicate Invocable(m: MethodInfo, vars: seq<Variant>) {
    && |vars| <= |m.params|
    && (forall i :: 0 <= i < |vars| ==> vars[i].Typed?)
    && (forall i :: |vars| <= i < |m.params| ==> m.params[i].hasDefault)
  }

  function Values(vars: seq<Variant>): seq<Value>
    requires forall i :: 0 <= i < |vars| ==> vars[i].Typed?
  {
    seq(|vars|, i requires 0 <= i < |vars| => vars[i].value)
  }

  predicate Accepts(w: World, o: Overload, params: Json) {
    Bind(w, o.info, params).Bound? && Invocable(o.info, Bind(w, o.info, params).vars)
  }

  function Refusal(w: World, o: Overload, params: Json): CallError
    requires !Accepts(w, o, params)
  {
    var b := Bind(w, o.info, params);
    if b.Rejected? then Unbound(b.error) else CannotInvoke
  }

  /** The reply when a method's code ran. */
  function AsReply(outcome: Outcome): Reply {
    match outcome
    case Returned(result) => Succeeded(result)
    case Raised(what) => Escaped(what)
  }

  function Execute(w: World, o: Overload, inst: Value, params: Json): (Value, Outcome)
    requires Accepts(w, o, params)
  {
    o.body(inst, Values(Bind(w, o.info, params).vars))
  }

  /** The first overload that binds and can be invoked, or the number of overloads. */
  function FirstAccepting(w: World, os: seq<Overload>, params: Json): nat {
    if os == [] || Accepts(w, os[0], params) then 0 else 1 + FirstAccepting(w, os[1..], params)
  }

  lemma {:induction false} FirstAcceptingIsFirst(w: World, os: seq<Overload>, params: Json)
    ensures var i := FirstAccepting(w, os, params);
            && i <= |os|
            && (i < |os| ==> Accepts(w, os[i], params))
            && (forall k :: 0 <= k < i ==> !Accepts(w, os[k], params))
  {
    if os != [] && !Accepts(w, os[0], params) {
      FirstAcceptingIsFirst(w, os[1..], params);
      forall k | 0 <= k < FirstAccepting(w, os, params) ensures !Accepts(w, os[k], params) {
        if k > 0 {
          assert os[1..][k - 1] == os[k];
        }
      }
    }
  }

  lemma FirstAcceptingUnique(w: World, os: seq<Overload>, params: Json, i: nat)
    requires i <= |os| && (i < |os| ==> Accepts(w, os[i], params))
    requires forall k :: 0 <= k < i ==> !Accepts(w, os[k], params)
    ensures FirstAccepting(w, os, params) == i
  {
    FirstAcceptingIsFirst(w, os, params);
  }

  function Refusals(w: World, os: seq<Overload>, params: Json): seq<CallError>
    requires forall k :: 0 <= k < |os| ==> !Accepts(w, os[k], params)
  {
    seq(|os|, i requires 0 <= i < |os| => Refusal(w, os[i], params))
  }

  function FailureReply(w: World, os: seq<Overload>, params: Json): Reply
    requires forall k :: 0 <= k < |os| ==> !Accepts(w, os[k], params)
  {
    if |os| == 1 then FailedAlone(Refusal(w, os[0], params)) else FailedAll(Refusals(w, os, params))
  }

  /** One dispatch to a list of overloads: the instance after it, and the reply. */
  function Dispatch(w: World, os: seq<Overload>, inst: Value, params: Json): (Value, Reply) {
    FirstAcceptingIsFirst(w, os, params);
    var i := FirstAccepting(w, os, params);
    if i < |os| then
      var r := Execute(w, os[i], inst, params);
      (r.0, AsReply(r.1))
    else (inst, FailureReply(w, os, params))
  }

  /** The methods called `name`, in registration order. */
  function Named(all: seq<Overload>, name: string): seq<Overload> {
    if all == [] then []
    else
      var last := all[|all| - 1];
      Named(all[..|all| - 1], name) + if last.info.name == name then [last] else []
  }

  class Service {
    const world: World
    const name: string
    const serviceInfo: Json
    /** The wording of a failed attempt. */
    const errorText: CallError -> string
    var methods: map<string, seq<Overload>>
    var inst: Value
    /** Every execution of a method's code, as method name and overload number. */
    ghost var executed: seq<(string, nat)>

    constructor (w: World, name: string, serviceInfo: Json, errorText: CallError -> string, inst: Value,
                 all: seq<Overload>)
      ensures this.world == w && this.name == name && this.serviceInfo == serviceInfo && this.errorText == errorText
      ensures this.inst == inst && executed == []
      ensures forall n :: (n in methods <==> Named(all, n) != []) && (n in methods ==> methods[n] == Named(all, n))
    {
      this.world, this.name, this.serviceInfo, this.errorText, this.inst := w, name, serviceInfo, errorText, inst;
      executed := [];
      new;
      ScanMethods(all);
    }

    method ScanMethods(all: seq<Overload>)
      modifies this`methods
      ensures forall n :: (n in methods <==> Named(all, n) != []) && (n in methods ==> methods[n] == Named(all, n))
    {
      methods := map[];
      for i := 0 to |all|
        invariant forall n ::
            (n in methods <==> Named(all[..i], n) != []) && (n in methods ==> methods[n] == Named(all[..i], n))
      {
        var m := all[i];
        assert all[..i + 1][..i] == all[..i];
        assert forall n :: Named(all[..i + 1], n) == Named(all[..i], n) + if m.info.name == n then [m] else [];
        var before := if m.info.name in methods then methods[m.info.name] else [];
        methods := methods[m.info.name := before + [m]];
      }
      assert all[..|all|] == all;
    }

    /** Binding, then invocation; the instance changes only if the method runs, which is what
        `ran` says: the C++ code then returns true, or lets the method's exception through. */
    method Invoke(o: Overload, ghost number: nat, params: Json) returns (ran: bool, ret: Outcome, err: CallError)
      requires Registered(world)
      modifies this`inst, this`executed
      ensures ran == Accepts(world, o, params)
      ensures ran ==> (inst, ret) == Execute(world, o, old(inst), params)
      ensures ran ==> executed == old(executed) + [(o.info.name, number)]
      ensures !ran ==> inst == old(inst) && executed == old(executed) && err == Refusal(world, o, params)
    {
      var vars: seq<Variant> := [];
      var bound := true;
      var bindError := NoError;
      ret, err := Returned(JNull), CannotInvoke;
      if params.JArray? {
        bound, vars, bindError := ParseArrayArguments(world, o.info, params);
      } else if params.JObject? {
        bound, vars, bindError := ParseNamedArguments(world, o.info, params);
      } else if !params.JNull? {
        bound, bindError := false, WrongFormat;
      }
      if !bound {
        return false, Returned(JNull), Unbound(bindError);
      }
      ran := Invocable(o.info, vars);
      if ran {
        var r := o.body(inst, Values(vars));
        inst, ret := r.0, r.1;
        executed := executed + [(o.info.name, number)];
      }
    }

    /** The search: it stops at the first overload that runs. */
    method DispatchRequest(methodName: string, params: Json) returns (reply: Reply)
      requires Registered(world)
      modifies this`inst, this`executed
      ensures methodName !in methods ==> reply == MethodMissing && inst == old(inst) && executed == old(executed)
      ensures methodName in methods ==>
        var os := methods[methodName];
        var first := FirstAccepting(world, os, params);
        && (inst, reply) == Dispatch(world, os, old(inst), params)
        && executed == old(executed) + if first < |os| then [(os[first].info.name, first)] else []
    {
      if methodName !in methods {
        return MethodMissing;
      }
      var os := methods[methodName];
      if |os| == 1 {
        var ran, ret, err := Invoke(os[0], 0, params);
        FirstAcceptingUnique(world, os, params, if ran then 0 else 1);
        return if ran then AsReply(ret) else FailedAlone(err);
      }
      var errors := [];
      for i := 0 to |os|
        invariant inst == old(inst) && executed == old(executed)
        invariant forall k :: 0 <= k < i ==> !Accepts(world, os[k], params)
        invariant errors == Refusals(world, os[..i], params)
      {
        var ran, ret, err := Invoke(os[i], i, params);
        if ran {
          FirstAcceptingUnique(world, os, params, i);
          return AsReply(ret);
        }
        errors := errors + [err];
      }
      FirstAcceptingUnique(world, os, params, |os|);
      assert os[..|os|] == os;
      reply := FailedAll(errors);
    }
  }

  /** Dispatch is first match with at most one effect: what it does depends on the overloads up
      to the first that accepts and on no other; when none accepts, nothing happens and each
      overload contributes exactly one error. */
  lemma DispatchIsFirstMatch(w: World, os: seq<Overload>, inst: Value, params: Json)
    ensures forall i :: 0 <= i < |os| && Accepts(w, os[i], params)
                        && (forall k :: 0 <= k < i ==> !Accepts(w, os[k], params)) ==>
              var r := Execute(w, os[i], inst, params);
              Dispatch(w, os, inst, params) == (r.0, AsReply(r.1))
    ensures (forall i :: 0 <= i < |os| ==> !Accepts(w, os[i], params)) ==>
              var (after, reply) := Dispatch(w, os, inst, params);
              && after == inst
              && (if |os| == 1 then reply == FailedAlone(Refusal(w, os[0], params))
                  else reply.FailedAll? && |reply.errors| == |os|
                       && forall i :: 0 <= i < |os| ==> reply.errors[i] == Refusal(w, os[i], params))
  {
    FirstAcceptingIsFirst(w, os, params);
    forall i | 0 <= i < |os| && Accepts(w, os[i], params) && (forall k :: 0 <= k < i ==> !Accepts(w, os[k], params))
      ensures FirstAccepting(w, os, params) == i
    {
      FirstAcceptingUnique(w, os, params, i);
    }
  }
}
