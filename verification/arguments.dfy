/**
 What a call's `params` come to, said without the functions that bind them: which calls an
 overload accepts, which arguments its code gets, and why a call is refused.
 */
module Arguments {
  import opened JsonValues
  import opened Reflection
  import opened FromJson
  import opened FromJsonOutcome
  import opened Methods
  import opened Services

  // ---------------------------------------------------------------------------------------
  // An array of arguments
  // ---------------------------------------------------------------------------------------

  predicate AllReadable(w: World, m: MethodInfo, vs: seq<Json>)
    requires |vs| <= |m.params|
  {
    forall i :: 0 <= i < |vs| ==> !Unreadable(w, m.params[i].ty, vs[i])
  }

  predicate FirstUnreadable(w: World, m: MethodInfo, vs: seq<Json>, i: nat)
    requires |vs| <= |m.params|
  {
    && i < |vs| && Unreadable(w, m.params[i].ty, vs[i])
    && forall k :: 0 <= k < i ==> !Unreadable(w, m.params[k].ty, vs[k])
  }

  function Fresh(w: World, m: MethodInfo, vs: seq<Json>): seq<Variant>
    requires |vs| <= |m.params|
  {
    seq(|vs|, i requires 0 <= i < |vs| => Extract(w, m.params[i].ty, vs[i]))
  }

  /** What an array is bound to, by the four things that can be wrong with it in turn. */
  lemma PositionalVerdict(w: World, m: MethodInfo, vs: seq<Json>)
    requires Numbered(m)
    ensures |vs| > |m.params| ==> Bind(w, m, JArray(vs)) == Rejected(ExtraParameters(false))
    ensures |vs| <= |m.params| ==>
              && (forall i :: 0 <= i < |vs| && FirstUnreadable(w, m, vs, i) ==>
                   Bind(w, m, JArray(vs)) == Rejected(UnparsedPosition(i)))
              && (AllReadable(w, m, vs) && |vs| < |m.params| && !m.params[|vs|].hasDefault ==>
                   Bind(w, m, JArray(vs)) == Rejected(NotEnoughParameters))
              && (AllReadable(w, m, vs) && (|vs| < |m.params| ==> m.params[|vs|].hasDefault) ==>
                   Bind(w, m, JArray(vs)) == Bound(Fresh(w, m, vs)))
  {
    if |vs| <= |m.params| {
      assert m.params[0..] == m.params;
      PositionalFromHere(w, m, vs, 0);
      if AllReadable(w, m, vs) {
        assert Fresh(w, m, vs)[..0] == [];
      }
    }
  }

  lemma {:induction false} PositionalFromHere(w: World, m: MethodInfo, vs: seq<Json>, n: nat)
    requires Numbered(m) && n <= |vs| <= |m.params|
    ensures var b := PositionalFrom(w, m.params[n..], JArray(vs), Fresh(w, m, vs)[..n]);
            && (forall i :: n <= i < |vs| && FirstUnreadable(w, m, vs, i) ==> b == Rejected(UnparsedPosition(i)))
            && (AllReadable(w, m, vs) && |vs| < |m.params| && !m.params[|vs|].hasDefault ==>
                 b == Rejected(NotEnoughParameters))
            && (AllReadable(w, m, vs) && (|vs| < |m.params| ==> m.params[|vs|].hasDefault) ==>
                 b == Bound(Fresh(w, m, vs)))
    decreases |vs| - n
  {
    assert Fresh(w, m, vs)[..|vs|] == Fresh(w, m, vs);
    if n < |vs| {
      FreshExactly(w, m.params[n].ty, vs[n]);
      assert m.params[n..][1..] == m.params[n + 1..];
      assert Fresh(w, m, vs)[..n] + [Fresh(w, m, vs)[n]] == Fresh(w, m, vs)[..n + 1];
      PositionalFromHere(w, m, vs, n + 1);
    }
  }

  lemma SomeFirstUnreadable(w: World, m: MethodInfo, vs: seq<Json>) returns (i: nat)
    requires |vs| <= |m.params| && !AllReadable(w, m, vs)
    ensures FirstUnreadable(w, m, vs, i)
  {
    i := 0;
    while !Unreadable(w, m.params[i].ty, vs[i])
      invariant i < |vs| && forall k :: 0 <= k < i ==> !Unreadable(w, m.params[k].ty, vs[k])
      decreases |vs| - i
    {
      if i == |vs| - 1 {
        break;
      }
      i := i + 1;
    }
  }

  /** An overload accepts an array exactly when it is not too long, each argument can be made a
      value of its parameter's type, and the parameters left over have defaults. */
  lemma ArrayAcceptedExactly(w: World, o: Overload, vs: seq<Json>)
    requires Numbered(o.info)
    ensures Accepts(w, o, JArray(vs)) <==>
              && |vs| <= |o.info.params|
              && (forall i :: 0 <= i < |vs| ==> Readable(w, o.info.params[i].ty, vs[i]))
              && (forall i :: |vs| <= i < |o.info.params| ==> o.info.params[i].hasDefault)
  {
    PositionalVerdict(w, o.info, vs);
    if |vs| <= |o.info.params| {
      forall i | 0 <= i < |vs|
        ensures Fresh(w, o.info, vs)[i].Typed? <==> Readable(w, o.info.params[i].ty, vs[i])
      {
        FreshExactly(w, o.info.params[i].ty, vs[i]);
      }
      if !AllReadable(w, o.info, vs) {
        var i := SomeFirstUnreadable(w, o.info, vs);
      }
    }
  }

  /** The code gets the arguments in order, each made of its own place in the array. */
  lemma ArrayArguments(w: World, o: Overload, inst: Value, vs: seq<Json>) returns (args: seq<Value>)
    requires Numbered(o.info) && Accepts(w, o, JArray(vs))
    ensures |args| == |vs| <= |o.info.params|
    ensures forall i :: 0 <= i < |vs| ==> Extract(w, o.info.params[i].ty, vs[i]) == Typed(args[i])
    ensures Execute(w, o, inst, JArray(vs)) == o.body(inst, args)
  {
    ArrayAcceptedExactly(w, o, vs);
    forall i | 0 <= i < |vs| ensures Extract(w, o.info.params[i].ty, vs[i]).Typed? {
      FreshExactly(w, o.info.params[i].ty, vs[i]);
    }
    PositionalVerdict(w, o.info, vs);
    args := seq(|vs|, i requires 0 <= i < |vs| => Extract(w, o.info.params[i].ty, vs[i]).value);
    assert Values(Fresh(w, o.info, vs)) == args;
  }

  // ---------------------------------------------------------------------------------------
  // An object of arguments
  // ---------------------------------------------------------------------------------------

  /** `n` parameters in front are named by the object, and the next one, if any, is not. */
  predicate NamesFirst(m: MethodInfo, ms: map<string, Json>, n: nat) {
    && n <= |m.params|
    && (forall i :: 0 <= i < n ==> m.params[i].name in ms)
    && (n < |m.params| ==> m.params[n].name !in ms)
  }

  function Given(m: MethodInfo, ms: map<string, Json>, n: nat): seq<Json>
    requires NamesFirst(m, ms, n)
  {
    seq(n, i requires 0 <= i < n => ms[m.params[i].name])
  }

  /** What an object is bound to, by the three things that can be wrong with it. */
  lemma NamedVerdict(w: World, m: MethodInfo, ms: map<string, Json>, n: nat)
    requires NamesFirst(m, ms, n)
    ensures !HasValidNames(m) ==> Bind(w, m, JObject(ms)) == Rejected(NoParameterNames)
    ensures HasValidNames(m) ==>
              var vs := Given(m, ms, n);
              && (forall i :: 0 <= i < n && FirstUnreadable(w, m, vs, i) ==>
                   Bind(w, m, JObject(ms)) == Rejected(UnparsedArgument(m.params[i].name)))
              && (AllReadable(w, m, vs) && n < |m.params| && !m.params[n].hasDefault ==>
                   Bind(w, m, JObject(ms)) == Rejected(MissingArgument(m.params[n].name)))
              && (AllReadable(w, m, vs) && (n < |m.params| ==> m.params[n].hasDefault) ==>
                   Bind(w, m, JObject(ms)) == Bound(Fresh(w, m, vs)))
  {
    if HasValidNames(m) {
      assert m.params[0..] == m.params;
      NamedFromHere(w, m, ms, n, 0);
      assert Fresh(w, m, Given(m, ms, n))[..0] == [];
    }
  }

  lemma {:induction false} NamedFromHere(w: World, m: MethodInfo, ms: map<string, Json>, n: nat, k: nat)
    requires NamesFirst(m, ms, n) && k <= n
    ensures var vs := Given(m, ms, n);
            var b := NamedFrom(w, m.params[k..], JObject(ms), Fresh(w, m, vs)[..k]);
            && (forall i :: k <= i < n && FirstUnreadable(w, m, vs, i) ==>
                 b == Rejected(UnparsedArgument(m.params[i].name)))
            && (AllReadable(w, m, vs) && n < |m.params| && !m.params[n].hasDefault ==>
                 b == Rejected(MissingArgument(m.params[n].name)))
            && (AllReadable(w, m, vs) && (n < |m.params| ==> m.params[n].hasDefault) ==> b == Bound(Fresh(w, m, vs)))
    decreases n - k
  {
    var vs := Given(m, ms, n);
    assert Fresh(w, m, vs)[..n] == Fresh(w, m, vs);
    if k < n {
      FreshExactly(w, m.params[k].ty, vs[k]);
      assert m.params[k..][1..] == m.params[k + 1..];
      assert Fresh(w, m, vs)[..k] + [Fresh(w, m, vs)[k]] == Fresh(w, m, vs)[..k + 1];
      NamedFromHere(w, m, ms, n, k + 1);
    }
  }

  /** An overload accepts an object exactly when each parameter named without a gap can be made a
      value of its type and all the others have defaults; what the object has under names behind
      the gap, or under no parameter's name, does not matter. */
  lemma ObjectAcceptedExactly(w: World, o: Overload, ms: map<string, Json>, n: nat)
    requires NamesFirst(o.info, ms, n)
    ensures Accepts(w, o, JObject(ms)) <==>
              && HasValidNames(o.info)
              && (forall i :: 0 <= i < n ==> Readable(w, o.info.params[i].ty, ms[o.info.params[i].name]))
              && (forall i :: n <= i < |o.info.params| ==> o.info.params[i].hasDefault)
  {
    NamedVerdict(w, o.info, ms, n);
    var vs := Given(o.info, ms, n);
    forall i | 0 <= i < n
      ensures Fresh(w, o.info, vs)[i].Typed? <==> Readable(w, o.info.params[i].ty, vs[i])
      ensures vs[i] == ms[o.info.params[i].name]
    {
      FreshExactly(w, o.info.params[i].ty, vs[i]);
    }
    if !AllReadable(w, o.info, vs) {
      var i := SomeFirstUnreadable(w, o.info, vs);
    }
  }

  /** The code gets the arguments in the parameters' order, each made of the object's member of
      that name. */
  lemma ObjectArguments(w: World, o: Overload, inst: Value, ms: map<string, Json>, n: nat) returns (args: seq<Value>)
    requires NamesFirst(o.info, ms, n) && Accepts(w, o, JObject(ms))
    ensures |args| == n
    ensures forall i :: 0 <= i < n ==>
              Extract(w, o.info.params[i].ty, ms[o.info.params[i].name]) == Typed(args[i])
    ensures Execute(w, o, inst, JObject(ms)) == o.body(inst, args)
  {
    ObjectAcceptedExactly(w, o, ms, n);
    var vs := Given(o.info, ms, n);
    forall i | 0 <= i < n ensures Extract(w, o.info.params[i].ty, vs[i]).Typed? {
      FreshExactly(w, o.info.params[i].ty, vs[i]);
    }
    NamedVerdict(w, o.info, ms, n);
    args := seq(n, i requires 0 <= i < n => Extract(w, o.info.params[i].ty, vs[i]).value);
    assert Values(Fresh(w, o.info, vs)) == args;
  }

  // ---------------------------------------------------------------------------------------
  // Anything else
  // ---------------------------------------------------------------------------------------

  /** Without `params` a call has no arguments; a scalar is never accepted. */
  lemma OtherParams(w: World, o: Overload, inst: Value, params: Json)
    requires !params.JArray? && !params.JObject?
    ensures Accepts(w, o, params) <==>
              params.JNull? && forall i :: 0 <= i < |o.info.params| ==> o.info.params[i].hasDefault
    ensures Accepts(w, o, params) ==> Execute(w, o, inst, params) == o.body(inst, [])
    ensures !params.JNull? ==> Bind(w, o.info, params) == Rejected(WrongFormat)
  {
    assert params.JNull? ==> Bind(w, o.info, params) == Bound([]);
    assert Accepts(w, o, params) ==> Values([]) == [];
  }

  /** The error of an overload that refuses: why its arguments could not be bound, or, when they
      could, that it cannot be invoked with them. */
  lemma RefusalExactly(w: World, o: Overload, params: Json)
    requires !Accepts(w, o, params)
    ensures Bind(w, o.info, params).Rejected? ==> Refusal(w, o, params) == Unbound(Bind(w, o.info, params).error)
    ensures Bind(w, o.info, params).Bound? ==> Refusal(w, o, params) == CannotInvoke
  {
  }

  // ---------------------------------------------------------------------------------------
  // Grouping
  // ---------------------------------------------------------------------------------------

  /** The overloads of a name are all the methods of that name, in registration order. */
  lemma {:induction false} GroupedInOrder(all: seq<Overload>, name: string) returns (at: seq<nat>)
    ensures |at| == |Services.Named(all, name)|
    ensures forall i :: 0 <= i < |at| ==> at[i] < |all| && Services.Named(all, name)[i] == all[at[i]]
    ensures forall i, k :: 0 <= i < k < |at| ==> at[i] < at[k]
    ensures forall k :: 0 <= k < |all| ==> (all[k].info.name == name <==> k in at)
  {
    if all == [] {
      at := [];
    } else {
      var init, last := all[..|all| - 1], |all| - 1;
      at := GroupedInOrder(init, name);
      assert forall k :: 0 <= k < last ==> init[k] == all[k];
      if all[last].info.name == name {
        var was := at;
        at := at + [last];
        assert forall k :: k in at <==> k in was || k == last;
      }
    }
  }
}
