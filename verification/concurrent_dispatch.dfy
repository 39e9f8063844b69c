/**
 Any number of threads dispatching to one service.  An invocation is not atomic: it reads the
 instance, computes, and writes the instance back.  A service that is not declared thread safe
 holds its mutex from before the first to after the last of these steps, once per overload
 that it tries.
 */
module ConcurrentDispatch {
  import opened JsonValues
  import opened Reflection
  import opened Methods
  import opened Services

  datatype Call = Call(overloads: seq<Overload>, params: Json)

  /** Where a thread is: about to bind overload `k`, waiting for the mutex, holding it, between
      reading and writing the instance, done with the code but still holding, and replied. */
  datatype Pc =
    | Trying(k: nat)
    | Waiting(k: nat)
    | Holding(k: nat)
    | Loaded(k: nat, snapshot: Value)
    | Stored(k: nat, outcome: Outcome)
    | Finished(reply: Reply)

  /** `order` lists the threads whose invocation goes through, as they acquire the mutex. */
  datatype System = System(inst: Value, holder: Option<nat>, pcs: map<nat, Pc>, order: seq<nat>)

  function Initial(inst: Value, calls: map<nat, Call>): System {
    System(inst, None, map t | t in calls :: Trying(0), [])
  }

  predicate Known(calls: map<nat, Call>, s: System) {
    s.pcs.Keys == calls.Keys && forall t :: t in calls ==> InRange(calls[t], s.pcs[t])
  }

  predicate InRange(c: Call, pc: Pc) {
    match pc
    case Trying(k) => k <= |c.overloads|
    case Waiting(k) => k < |c.overloads|
    case Holding(k) => k < |c.overloads|
    case Loaded(k, _) => k < |c.overloads|
    case Stored(k, _) => k < |c.overloads|
    case Finished(_) => true
  }

  /** Whether thread `t` can take a step; `locking` says that the service uses its mutex. */
  predicate Enabled(w: World, calls: map<nat, Call>, locking: bool, s: System, t: nat) {
    && Known(calls, s) && t in calls && !s.pcs[t].Finished?
    && (s.pcs[t].Waiting? && locking ==> s.holder.None?)
    && (s.pcs[t].Loaded? ==> Accepts(w, calls[t].overloads[s.pcs[t].k], calls[t].params))
    && (s.pcs[t] == Trying(|calls[t].overloads|) ==>
         forall i :: 0 <= i < |calls[t].overloads| ==> !Accepts(w, calls[t].overloads[i], calls[t].params))
  }

  function Step(w: World, calls: map<nat, Call>, locking: bool, s: System, t: nat): System
    requires Enabled(w, calls, locking, s, t)
  {
    var c := calls[t];
    match s.pcs[t]
    case Trying(k) =>
      if k == |c.overloads| then s.(pcs := s.pcs[t := Finished(FailureReply(w, c.overloads, c.params))])
      else if Bind(w, c.overloads[k].info, c.params).Rejected? then s.(pcs := s.pcs[t := Trying(k + 1)])
      else s.(pcs := s.pcs[t := Waiting(k)])
    case Waiting(k) =>
      s.(holder := if locking then Some(t) else s.holder,
         pcs := s.pcs[t := Holding(k)],
         order := s.order + if Accepts(w, c.overloads[k], c.params) then [t] else [])
    case Holding(k) =>
      if Accepts(w, c.overloads[k], c.params) then s.(pcs := s.pcs[t := Loaded(k, s.inst)])
      else s.(holder := if locking then None else s.holder, pcs := s.pcs[t := Trying(k + 1)])
    case Loaded(k, snapshot) =>
      var r := Execute(w, c.overloads[k], snapshot, c.params);
      s.(inst := r.0, pcs := s.pcs[t := Stored(k, r.1)])
    case Stored(k, outcome) =>
      s.(holder := if locking then None else s.holder, pcs := s.pcs[t := Finished(AsReply(outcome))])
    case Finished(_) => s
  }

  /** A schedule: which thread moves next. */
  predicate Run(w: World, calls: map<nat, Call>, locking: bool, s: System, ts: seq<nat>)
    decreases ts
  {
    ts == [] || (Enabled(w, calls, locking, s, ts[0])
        && Run(w, calls, locking, Step(w, calls, locking, s, ts[0]), ts[1..]))
  }

  function After(w: World, calls: map<nat, Call>, locking: bool, s: System, ts: seq<nat>): System
    requires Run(w, calls, locking, s, ts)
    decreases ts
  {
    if ts == [] then s else After(w, calls, locking, Step(w, calls, locking, s, ts[0]), ts[1..])
  }

  // ---------------------------------------------------------------------------------------
  // One at a time
  // ---------------------------------------------------------------------------------------

  /** The instance after dispatching the calls of `ts` one at a time. */
  function Serial(w: World, calls: map<nat, Call>, inst: Value, ts: seq<nat>): Value
    requires forall i :: 0 <= i < |ts| ==> ts[i] in calls
  {
    if ts == [] then inst
    else
      var t := ts[|ts| - 1];
      Dispatch(w, calls[t].overloads, Serial(w, calls, inst, ts[..|ts| - 1]), calls[t].params).0
  }

  /** The reply that the call at position `p` gets when they are dispatched one at a time. */
  function SerialReply(w: World, calls: map<nat, Call>, inst: Value, ts: seq<nat>, p: nat): Reply
    requires p < |ts| && forall i :: 0 <= i < |ts| ==> ts[i] in calls
  {
    Dispatch(w, calls[ts[p]].overloads, Serial(w, calls, inst, ts[..p]), calls[ts[p]].params).1
  }

  // ---------------------------------------------------------------------------------------
  // The invariant
  // ---------------------------------------------------------------------------------------

  /** The reply of a call whose code ran, to its end or to an exception. */
  predicate Ran(reply: Reply) {
    reply.Succeeded? || reply.Escaped?
  }

  predicate Holds(pc: Pc) {
    pc.Holding? || pc.Loaded? || pc.Stored?
  }

  /** The thread's invocation goes through and has acquired the mutex. */
  predicate Ordered(w: World, c: Call, pc: Pc)
    requires InRange(c, pc)
  {
    match pc
    case Holding(k) => Accepts(w, c.overloads[k], c.params)
    case Loaded(_, _) => true
    case Stored(_, _) => true
    case Finished(reply) => Ran(reply)
    case Trying(_) => false
    case Waiting(_) => false
  }

  /** The thread's code is between acquiring the mutex and writing the instance. */
  predicate InFlight(w: World, c: Call, pc: Pc)
    requires InRange(c, pc)
  {
    (pc.Holding? && Accepts(w, c.overloads[pc.k], c.params)) || pc.Loaded?
  }

  predicate NoneBefore(w: World, c: Call, k: nat)
    requires k <= |c.overloads|
  {
    forall i :: 0 <= i < k ==> !Accepts(w, c.overloads[i], c.params)
  }

  /** What a thread's position says about its own call. */
  predicate ThreadOk(w: World, c: Call, pc: Pc, inst: Value)
    requires InRange(c, pc)
  {
    match pc
    case Trying(k) => NoneBefore(w, c, k)
    case Waiting(k) => NoneBefore(w, c, k) && Bind(w, c.overloads[k].info, c.params).Bound?
    case Holding(k) => NoneBefore(w, c, k) && Bind(w, c.overloads[k].info, c.params).Bound?
    case Loaded(k, snapshot) => NoneBefore(w, c, k) && Accepts(w, c.overloads[k], c.params) && snapshot == inst
    case Stored(k, _) => NoneBefore(w, c, k) && Accepts(w, c.overloads[k], c.params)
    case Finished(reply) =>
      Ran(reply) || (NoneBefore(w, c, |c.overloads|) && reply == FailureReply(w, c.overloads, c.params))
  }

  /** The reply of a thread whose code ran. */
  function Settled(pc: Pc): Option<Reply> {
    match pc
    case Stored(_, outcome) => Some(AsReply(outcome))
    case Finished(reply) => if Ran(reply) then Some(reply) else None
    case _ => None
  }

  /** One thread's share of the invariant: mutual exclusion, its own call, and its place in the
      serial order, which is the last place while its code is under way. */
  predicate ThreadInv(w: World, calls: map<nat, Call>, s: System, t: nat)
    requires Known(calls, s) && t in calls
  {
    && (Holds(s.pcs[t]) <==> s.holder == Some(t))
    && ThreadOk(w, calls[t], s.pcs[t], s.inst)
    && (t in s.order <==> Ordered(w, calls[t], s.pcs[t]))
    && (InFlight(w, calls[t], s.pcs[t]) ==> s.order != [] && s.order[|s.order| - 1] == t)
  }

  predicate OrderOk(calls: map<nat, Call>, order: seq<nat>) {
    && (forall i :: 0 <= i < |order| ==> order[i] in calls)
    && (forall i, j :: 0 <= i < j < |order| ==> order[i] != order[j])
  }

  predicate ReplyOk(w: World, calls: map<nat, Call>, start: Value, s: System, p: nat)
    requires Known(calls, s) && OrderOk(calls, s.order) && p < |s.order|
  {
    var reply := Settled(s.pcs[s.order[p]]);
    reply.Some? ==> SerialReply(w, calls, start, s.order, p) == reply.value
  }

  /** Mutual exclusion by a mutex that only threads take, and each thread's own share. */
  predicate ThreadsOk(w: World, calls: map<nat, Call>, s: System) {
    && Known(calls, s)
    && (s.holder.Some? ==> s.holder.value in calls)
    && (forall t :: t in calls ==> ThreadInv(w, calls, s, t))
  }

  predicate RepliesOk(w: World, calls: map<nat, Call>, start: Value, s: System)
    requires Known(calls, s) && OrderOk(calls, s.order)
  {
    forall p :: 0 <= p < |s.order| ==> ReplyOk(w, calls, start, s, p)
  }

  predicate Inv(w: World, calls: map<nat, Call>, start: Value, s: System) {
    && ThreadsOk(w, calls, s)
    && OrderOk(calls, s.order)
    // the instance is what the serial order makes of it, but for an invocation under way
    && s.inst == Serial(w, calls, start, Written(w, calls, s))
    && RepliesOk(w, calls, start, s)
  }

  /** The part of the serial order that has reached the instance. */
  function Written(w: World, calls: map<nat, Call>, s: System): seq<nat>
    requires Known(calls, s)
  {
    if s.order != [] && s.order[|s.order| - 1] in calls
       && InFlight(w, calls[s.order[|s.order| - 1]], s.pcs[s.order[|s.order| - 1]])
    then s.order[..|s.order| - 1] else s.order
  }

  lemma InitialInv(w: World, calls: map<nat, Call>, start: Value)
    ensures Inv(w, calls, start, Initial(start, calls))
  {
  }

  /** Replies already given do not depend on what is ordered later. */
  lemma SerialReplyPrefix(w: World, calls: map<nat, Call>, start: Value, ts: seq<nat>, t: nat, p: nat)
    requires p < |ts| && t in calls && forall i :: 0 <= i < |ts| ==> ts[i] in calls
    ensures SerialReply(w, calls, start, ts + [t], p) == SerialReply(w, calls, start, ts, p)
  {
    assert (ts + [t])[..p] == ts[..p];
  }

  lemma StepKeepsOwn(w: World, calls: map<nat, Call>, s: System, t: nat)
    requires Known(calls, s) && Enabled(w, calls, true, s, t) && ThreadInv(w, calls, s, t)
    ensures Known(calls, Step(w, calls, true, s, t)) && ThreadInv(w, calls, Step(w, calls, true, s, t), t)
  {
    if s.pcs[t].Trying? {
      TryingKeepsOwn(w, calls, s, t);
    } else if s.pcs[t].Waiting? {
      WaitingKeepsOwn(w, calls, s, t);
    } else if s.pcs[t].Holding? {
      HoldingKeepsOwn(w, calls, s, t);
    }
  }

  lemma TryingKeepsOwn(w: World, calls: map<nat, Call>, s: System, t: nat)
    requires Known(calls, s) && Enabled(w, calls, true, s, t) && ThreadInv(w, calls, s, t) && s.pcs[t].Trying?
    ensures Known(calls, Step(w, calls, true, s, t)) && ThreadInv(w, calls, Step(w, calls, true, s, t), t)
  {
  }

  lemma WaitingKeepsOwn(w: World, calls: map<nat, Call>, s: System, t: nat)
    requires Known(calls, s) && Enabled(w, calls, true, s, t) && ThreadInv(w, calls, s, t) && s.pcs[t].Waiting?
    ensures Known(calls, Step(w, calls, true, s, t)) && ThreadInv(w, calls, Step(w, calls, true, s, t), t)
  {
  }

  lemma HoldingKeepsOwn(w: World, calls: map<nat, Call>, s: System, t: nat)
    requires Known(calls, s) && Enabled(w, calls, true, s, t) && ThreadInv(w, calls, s, t) && s.pcs[t].Holding?
    ensures Known(calls, Step(w, calls, true, s, t)) && ThreadInv(w, calls, Step(w, calls, true, s, t), t)
  {
  }

  lemma StepKeepsOther(w: World, calls: map<nat, Call>, s: System, t: nat, u: nat)
    requires Known(calls, s) && Enabled(w, calls, true, s, t) && u in calls && u != t
    requires ThreadInv(w, calls, s, t) && ThreadInv(w, calls, s, u)
    requires Known(calls, Step(w, calls, true, s, t))
    ensures ThreadInv(w, calls, Step(w, calls, true, s, t), u)
  {
    var s' := Step(w, calls, true, s, t);
    assert s'.pcs[u] == s.pcs[u];
    assert s'.order == s.order || s'.order == s.order + [t];
  }

  lemma StepKeepsOrder(w: World, calls: map<nat, Call>, s: System, t: nat)
    requires Known(calls, s) && Enabled(w, calls, true, s, t) && ThreadInv(w, calls, s, t) && OrderOk(calls, s.order)
    ensures OrderOk(calls, Step(w, calls, true, s, t).order)
  {
    var s' := Step(w, calls, true, s, t);
    if s'.order != s.order {
      assert s'.order == s.order + [t] && t !in s.order;
    }
  }

  /** A thread that has the mutex, or takes it, is the only one whose code can be under way. */
  lemma OthersNotInFlight(w: World, calls: map<nat, Call>, s: System, t: nat, u: nat)
    requires Known(calls, s) && t in calls && u in calls && u != t
    requires ThreadInv(w, calls, s, u) && (s.holder.None? || s.holder == Some(t))
    ensures !InFlight(w, calls[u], s.pcs[u])
  {
  }

  /** The last call of a serial order, when overload `k` is its first that accepts. */
  lemma SerialLast(w: World, calls: map<nat, Call>, start: Value, ts: seq<nat>, k: nat)
    requires ts != [] && forall i :: 0 <= i < |ts| ==> ts[i] in calls
    requires var c := calls[ts[|ts| - 1]];
             k < |c.overloads| && NoneBefore(w, c, k) && Accepts(w, c.overloads[k], c.params)
    ensures var c := calls[ts[|ts| - 1]];
            var r := Execute(w, c.overloads[k], Serial(w, calls, start, ts[..|ts| - 1]), c.params);
            Serial(w, calls, start, ts) == r.0 && SerialReply(w, calls, start, ts, |ts| - 1) == AsReply(r.1)
  {
    var c := calls[ts[|ts| - 1]];
    FirstAcceptingUnique(w, c.overloads, c.params, k);
  }

  /** When the code of thread `t` is under way, all but `t` of the serial order is written. */
  lemma LoadedIsLast(w: World, calls: map<nat, Call>, start: Value, s: System, t: nat)
    requires Inv(w, calls, start, s) && t in calls && s.pcs[t].Loaded?
    ensures s.order != [] && s.order[|s.order| - 1] == t
    ensures s.pcs[t].snapshot == Serial(w, calls, start, s.order[..|s.order| - 1])
  {
    assert ThreadInv(w, calls, s, t);
  }

  lemma StepKeepsReply(w: World, calls: map<nat, Call>, start: Value, s: System, t: nat, p: nat)
    requires Inv(w, calls, start, s) && Enabled(w, calls, true, s, t)
    requires var s' := Step(w, calls, true, s, t); Known(calls, s') && OrderOk(calls, s'.order) && p < |s'.order|
    ensures ReplyOk(w, calls, start, Step(w, calls, true, s, t), p)
  {
    assert ThreadInv(w, calls, s, t);
    if s.pcs[t].Loaded? {
      LoadedKeepsReply(w, calls, start, s, t, p);
    } else if s.pcs[t].Waiting? {
      WaitingKeepsReply(w, calls, start, s, t, p);
    } else {
      OtherwiseKeepsReply(w, calls, start, s, t, p);
    }
  }

  lemma LoadedKeepsReply(w: World, calls: map<nat, Call>, start: Value, s: System, t: nat, p: nat)
    requires Inv(w, calls, start, s) && Enabled(w, calls, true, s, t) && s.pcs[t].Loaded?
    requires Known(calls, Step(w, calls, true, s, t)) && p < |s.order|
    ensures ReplyOk(w, calls, start, Step(w, calls, true, s, t), p)
  {
    LoadedIsLast(w, calls, start, s, t);
    if p == |s.order| - 1 {
      SerialLast(w, calls, start, s.order, s.pcs[t].k);
    } else {
      assert ReplyOk(w, calls, start, s, p);
    }
  }

  lemma OtherwiseKeepsReply(w: World, calls: map<nat, Call>, start: Value, s: System, t: nat, p: nat)
    requires Inv(w, calls, start, s) && Enabled(w, calls, true, s, t)
    requires s.pcs[t].Trying? || s.pcs[t].Holding? || s.pcs[t].Stored?
    requires Known(calls, Step(w, calls, true, s, t)) && p < |s.order|
    ensures ReplyOk(w, calls, start, Step(w, calls, true, s, t), p)
  {
    SettledCarriesOver(w, calls, s, t, s.order[p]);
    assert ReplyOk(w, calls, start, s, p);
  }

  lemma SettledCarriesOver(w: World, calls: map<nat, Call>, s: System, t: nat, u: nat)
    requires ThreadsOk(w, calls, s) && Enabled(w, calls, true, s, t) && u in calls && u in s.order
    requires s.pcs[t].Trying? || s.pcs[t].Holding? || s.pcs[t].Stored?
    requires Known(calls, Step(w, calls, true, s, t))
    ensures var s' := Step(w, calls, true, s, t);
            s'.order == s.order && (Settled(s'.pcs[u]).Some? ==> Settled(s.pcs[u]) == Settled(s'.pcs[u]))
  {
    assert ThreadInv(w, calls, s, u);
  }

  lemma WaitingKeepsReply(w: World, calls: map<nat, Call>, start: Value, s: System, t: nat, p: nat)
    requires Inv(w, calls, start, s) && Enabled(w, calls, true, s, t) && s.pcs[t].Waiting?
    requires var s' := Step(w, calls, true, s, t); Known(calls, s') && OrderOk(calls, s'.order) && p < |s'.order|
    ensures ReplyOk(w, calls, start, Step(w, calls, true, s, t), p)
  {
    var s' := Step(w, calls, true, s, t);
    if p < |s.order| {
      assert ReplyOk(w, calls, start, s, p);
      if s'.order != s.order {
        SerialReplyPrefix(w, calls, start, s.order, t, p);
      }
    }
  }

  /** The last thread of the order is not under way while another takes, or has, the mutex. */
  lemma LastNotInFlight(w: World, calls: map<nat, Call>, start: Value, s: System, t: nat)
    requires Inv(w, calls, start, s) && t in calls && (s.holder.None? || s.holder == Some(t))
    requires !InFlight(w, calls[t], s.pcs[t])
    ensures Written(w, calls, s) == s.order
  {
    if s.order != [] {
      var u := s.order[|s.order| - 1];
      assert ThreadInv(w, calls, s, u);
      if u != t {
        OthersNotInFlight(w, calls, s, t, u);
      }
    }
  }

  lemma StepKeepsInstance(w: World, calls: map<nat, Call>, start: Value, s: System, t: nat)
    requires Inv(w, calls, start, s) && Enabled(w, calls, true, s, t)
    requires var s' := Step(w, calls, true, s, t); Known(calls, s') && OrderOk(calls, s'.order)
    ensures var s' := Step(w, calls, true, s, t); s'.inst == Serial(w, calls, start, Written(w, calls, s'))
  {
    if s.pcs[t].Loaded? {
      StoreReachesInstance(w, calls, start, s, t);
    } else {
      InstanceUntouched(w, calls, s, t);
      if s.pcs[t].Waiting? {
        LastNotInFlight(w, calls, start, s, t);
        WrittenAfterAcquire(w, calls, start, s, t);
      } else {
        WrittenUnchanged(w, calls, start, s, t);
      }
      assert Written(w, calls, Step(w, calls, true, s, t)) == Written(w, calls, s);
    }
  }

  lemma InstanceUntouched(w: World, calls: map<nat, Call>, s: System, t: nat)
    requires Enabled(w, calls, true, s, t) && !s.pcs[t].Loaded?
    ensures Step(w, calls, true, s, t).inst == s.inst
  {
  }

  lemma StoreReachesInstance(w: World, calls: map<nat, Call>, start: Value, s: System, t: nat)
    requires Inv(w, calls, start, s) && Enabled(w, calls, true, s, t) && s.pcs[t].Loaded?
    requires Known(calls, Step(w, calls, true, s, t))
    ensures var s' := Step(w, calls, true, s, t); s'.inst == Serial(w, calls, start, Written(w, calls, s'))
  {
    LoadedIsLast(w, calls, start, s, t);
    SerialLast(w, calls, start, s.order, s.pcs[t].k);
    WrittenAfterStore(w, calls, start, s, t);
  }

  lemma WrittenAfterStore(w: World, calls: map<nat, Call>, start: Value, s: System, t: nat)
    requires Inv(w, calls, start, s) && Enabled(w, calls, true, s, t) && s.pcs[t].Loaded?
    requires s.order != [] && s.order[|s.order| - 1] == t
    requires Known(calls, Step(w, calls, true, s, t))
    ensures Written(w, calls, Step(w, calls, true, s, t)) == s.order
  {
  }

  lemma WrittenAfterAcquire(w: World, calls: map<nat, Call>, start: Value, s: System, t: nat)
    requires Inv(w, calls, start, s) && Enabled(w, calls, true, s, t) && s.pcs[t].Waiting?
    requires Written(w, calls, s) == s.order && Known(calls, Step(w, calls, true, s, t))
    ensures Written(w, calls, Step(w, calls, true, s, t)) == s.order
  {
    var s' := Step(w, calls, true, s, t);
    assert ThreadInv(w, calls, s, t);
    if s'.order != s.order {
      assert s'.order == s.order + [t];
      assert s'.order[..|s'.order| - 1] == s.order;
    } else if s.order != [] {
      assert s.order[|s.order| - 1] != t;
      assert s.order[..|s.order| - 1] != s.order;
    }
  }

  lemma WrittenUnchanged(w: World, calls: map<nat, Call>, start: Value, s: System, t: nat)
    requires Inv(w, calls, start, s) && Enabled(w, calls, true, s, t)
    requires s.pcs[t].Trying? || s.pcs[t].Holding? || s.pcs[t].Stored?
    requires Known(calls, Step(w, calls, true, s, t))
    ensures Written(w, calls, Step(w, calls, true, s, t)) == Written(w, calls, s)
  {
    if s.order != [] {
      InFlightCarriesOver(w, calls, s, t, s.order[|s.order| - 1]);
    }
  }

  lemma InFlightCarriesOver(w: World, calls: map<nat, Call>, s: System, t: nat, u: nat)
    requires Enabled(w, calls, true, s, t) && u in calls
    requires s.pcs[t].Trying? || s.pcs[t].Holding? || s.pcs[t].Stored?
    requires Known(calls, Step(w, calls, true, s, t))
    ensures var s' := Step(w, calls, true, s, t);
            s'.order == s.order && (InFlight(w, calls[u], s'.pcs[u]) <==> InFlight(w, calls[u], s.pcs[u]))
  {
  }

  lemma StepKeepsThreads(w: World, calls: map<nat, Call>, s: System, t: nat)
    requires ThreadsOk(w, calls, s) && Enabled(w, calls, true, s, t)
    ensures ThreadsOk(w, calls, Step(w, calls, true, s, t))
  {
    var s' := Step(w, calls, true, s, t);
    assert ThreadInv(w, calls, s, t);
    StepKeepsOwn(w, calls, s, t);
    assert s'.holder.None? || s'.holder == s.holder || s'.holder == Some(t);
    forall u | u in calls ensures ThreadInv(w, calls, s', u) {
      if u != t {
        StepKeepsOther(w, calls, s, t, u);
      }
    }
  }

  lemma StepKeepsReplies(w: World, calls: map<nat, Call>, start: Value, s: System, t: nat)
    requires Inv(w, calls, start, s) && Enabled(w, calls, true, s, t)
    requires var s' := Step(w, calls, true, s, t); Known(calls, s') && OrderOk(calls, s'.order)
    ensures RepliesOk(w, calls, start, Step(w, calls, true, s, t))
  {
    var s' := Step(w, calls, true, s, t);
    forall p | 0 <= p < |s'.order| ensures ReplyOk(w, calls, start, s', p) {
      StepKeepsReply(w, calls, start, s, t, p);
    }
  }

  lemma StepKeepsInv(w: World, calls: map<nat, Call>, start: Value, s: System, t: nat)
    requires Inv(w, calls, start, s) && Enabled(w, calls, true, s, t)
    ensures Inv(w, calls, start, Step(w, calls, true, s, t))
  {
    assert ThreadInv(w, calls, s, t);
    StepKeepsThreads(w, calls, s, t);
    StepKeepsOrder(w, calls, s, t);
    StepKeepsInstance(w, calls, start, s, t);
    StepKeepsReplies(w, calls, start, s, t);
  }

  lemma {:induction false} RunKeepsInv(w: World, calls: map<nat, Call>, start: Value, s: System, ts: seq<nat>)
    requires Inv(w, calls, start, s) && Run(w, calls, true, s, ts)
    ensures Inv(w, calls, start, After(w, calls, true, s, ts))
    decreases ts
  {
    if ts != [] {
      StepKeepsInv(w, calls, start, s, ts[0]);
      RunKeepsInv(w, calls, start, Step(w, calls, true, s, ts[0]), ts[1..]);
    }
  }

  // ---------------------------------------------------------------------------------------
  // Main results
  // ---------------------------------------------------------------------------------------

  lemma FailedCall(w: World, c: Call, inst: Value)
    requires NoneBefore(w, c, |c.overloads|)
    ensures Dispatch(w, c.overloads, inst, c.params) == (inst, FailureReply(w, c.overloads, c.params))
  {
    FirstAcceptingUnique(w, c.overloads, c.params, |c.overloads|);
  }

  /** Under every interleaving of every number of threads: once all have replied, the instance
      and every reply are those of dispatching the calls one at a time, in the order in which
      the successful invocations acquired the mutex.  The calls left out of that order failed,
      and get the same failure without any effect wherever they are put in. */
  lemma DispatchIsSerializable(w: World, calls: map<nat, Call>, start: Value, ts: seq<nat>)
    requires Run(w, calls, true, Initial(start, calls), ts)
    ensures var s := After(w, calls, true, Initial(start, calls), ts);
            && s.pcs.Keys == calls.Keys && (forall i :: 0 <= i < |s.order| ==> s.order[i] in calls)
            && ((forall t :: t in calls ==> s.pcs[t].Finished?) ==>
                 && s.inst == Serial(w, calls, start, s.order)
                 && (forall p :: 0 <= p < |s.order| ==>
                       s.pcs[s.order[p]] == Finished(SerialReply(w, calls, start, s.order, p)))
                 && (forall t, inst :: t in calls && t !in s.order ==>
                      Dispatch(w, calls[t].overloads, inst, calls[t].params) == (inst, s.pcs[t].reply)))
  {
    InitialInv(w, calls, start);
    RunKeepsInv(w, calls, start, Initial(start, calls), ts);
    var s := After(w, calls, true, Initial(start, calls), ts);
    if forall t :: t in calls ==> s.pcs[t].Finished? {
      assert Written(w, calls, s) == s.order;
      forall p | 0 <= p < |s.order|
        ensures s.pcs[s.order[p]] == Finished(SerialReply(w, calls, start, s.order, p))
      {
        assert ReplyOk(w, calls, start, s, p);
        assert ThreadInv(w, calls, s, s.order[p]);
      }
      forall t, inst | t in calls && t !in s.order
        ensures Dispatch(w, calls[t].overloads, inst, calls[t].params) == (inst, s.pcs[t].reply)
      {
        assert ThreadInv(w, calls, s, t);
        FailedCall(w, calls[t], inst);
      }
    }
  }

  /** At every moment at most one thread is inside an invocation. */
  lemma MutualExclusion(w: World, calls: map<nat, Call>, start: Value, ts: seq<nat>, t: nat, u: nat)
    requires Run(w, calls, true, Initial(start, calls), ts)
    requires var s := After(w, calls, true, Initial(start, calls), ts);
             t in s.pcs && u in s.pcs && Holds(s.pcs[t]) && Holds(s.pcs[u])
    ensures t == u
  {
    InitialInv(w, calls, start);
    RunKeepsInv(w, calls, start, Initial(start, calls), ts);
  }

  /** In a state that meets the invariant a thread can move exactly when it has not replied and
      does not wait for a held mutex, and the holder is a thread that can. */
  lemma MovesExactly(w: World, calls: map<nat, Call>, start: Value, s: System, t: nat)
    requires Inv(w, calls, start, s) && t in calls
    ensures Enabled(w, calls, true, s, t) <==> !s.pcs[t].Finished? && !(s.pcs[t].Waiting? && s.holder.Some?)
    ensures s.holder == Some(t) ==> Enabled(w, calls, true, s, t)
  {
    assert ThreadInv(w, calls, s, t);
  }

  predicate AllReplied(calls: map<nat, Call>, s: System)
    requires Known(calls, s)
  {
    forall t :: t in calls ==> s.pcs[t].Finished?
  }

  lemma SomeoneCanMove(w: World, calls: map<nat, Call>, start: Value, s: System) returns (u: nat)
    requires Inv(w, calls, start, s) && !AllReplied(calls, s)
    ensures u in calls && Enabled(w, calls, true, s, u)
  {
    if s.holder.Some? {
      u := s.holder.value;
    } else {
      u :| u in calls && !s.pcs[u].Finished?;
    }
    MovesExactly(w, calls, start, s, u);
  }

  /** No deadlock, though one dispatch may take the mutex several times: every thread that has
      not replied can move, unless it waits for a mutex that another thread holds; the holder is
      one of the threads and can move; so as long as some thread has not replied, some thread
      can move. */
  lemma NoDeadlock(w: World, calls: map<nat, Call>, start: Value, ts: seq<nat>)
    requires Run(w, calls, true, Initial(start, calls), ts)
    ensures var s := After(w, calls, true, Initial(start, calls), ts);
            && Known(calls, s)
            && (forall t :: t in calls ==>
                 (Enabled(w, calls, true, s, t) <==> !s.pcs[t].Finished? && !(s.pcs[t].Waiting? && s.holder.Some?)))
            && (s.holder.Some? ==> s.holder.value in calls && Enabled(w, calls, true, s, s.holder.value))
            && (!AllReplied(calls, s) ==> exists u :: u in calls && Enabled(w, calls, true, s, u))
  {
    InitialInv(w, calls, start);
    RunKeepsInv(w, calls, start, Initial(start, calls), ts);
    var s := After(w, calls, true, Initial(start, calls), ts);
    forall t | t in calls
      ensures Enabled(w, calls, true, s, t) <==> !s.pcs[t].Finished? && !(s.pcs[t].Waiting? && s.holder.Some?)
    {
      MovesExactly(w, calls, start, s, t);
    }
    if s.holder.Some? {
      MovesExactly(w, calls, start, s, s.holder.value);
    }
    if !AllReplied(calls, s) {
      var u := SomeoneCanMove(w, calls, start, s);
    }
  }

  // ---------------------------------------------------------------------------------------
  // Every dispatch ends
  // ---------------------------------------------------------------------------------------

  /** The steps that a thread can still take: at most five for each overload, and the reply. */
  function Left(c: Call, pc: Pc): nat
    requires InRange(c, pc)
  {
    match pc
    case Trying(k) => 5 * (|c.overloads| - k) + 1
    case Waiting(k) => 5 * (|c.overloads| - k)
    case Holding(k) => 5 * (|c.overloads| - k) - 1
    case Loaded(k, _) => 5 * (|c.overloads| - k) - 2
    case Stored(k, _) => 5 * (|c.overloads| - k) - 3
    case Finished(_) => 0
  }

  ghost function Pick(ids: set<nat>): (t: nat)
    requires ids != {}
    ensures t in ids
  {
    var t :| t in ids;
    t
  }

  /** The steps that the threads `ids` can still take together. */
  ghost function Total(calls: map<nat, Call>, s: System, ids: set<nat>): nat
    requires Known(calls, s) && ids <= calls.Keys
  {
    if ids == {} then 0
    else
      var t := Pick(ids);
      Left(calls[t], s.pcs[t]) + Total(calls, s, ids - {t})
  }

  lemma {:induction false} TotalSplits(calls: map<nat, Call>, s: System, ids: set<nat>, t: nat)
    requires Known(calls, s) && ids <= calls.Keys && t in ids
    ensures Total(calls, s, ids) == Left(calls[t], s.pcs[t]) + Total(calls, s, ids - {t})
    decreases ids
  {
    var u := Pick(ids);
    if u != t {
      TotalSplits(calls, s, ids - {u}, t);
      TotalSplits(calls, s, ids - {t}, u);
      assert ids - {u} - {t} == ids - {t} - {u};
    }
  }

  lemma {:induction false} TotalUnchanged(calls: map<nat, Call>, s: System, s': System, ids: set<nat>)
    requires Known(calls, s) && Known(calls, s') && ids <= calls.Keys
    requires forall u :: u in ids ==> s'.pcs[u] == s.pcs[u]
    ensures Total(calls, s', ids) == Total(calls, s, ids)
    decreases ids
  {
    if ids != {} {
      TotalUnchanged(calls, s, s', ids - {Pick(ids)});
    }
  }

  lemma OwnStepsFall(w: World, calls: map<nat, Call>, s: System, t: nat)
    requires Enabled(w, calls, true, s, t)
    ensures var s' := Step(w, calls, true, s, t);
            && Known(calls, s') && (forall u :: u in calls && u != t ==> s'.pcs[u] == s.pcs[u])
            && Left(calls[t], s'.pcs[t]) < Left(calls[t], s.pcs[t])
  {
  }

  lemma StepFalls(w: World, calls: map<nat, Call>, s: System, t: nat)
    requires Enabled(w, calls, true, s, t)
    ensures var s' := Step(w, calls, true, s, t);
            Known(calls, s') && Total(calls, s', calls.Keys) < Total(calls, s, calls.Keys)
  {
    var s' := Step(w, calls, true, s, t);
    OwnStepsFall(w, calls, s, t);
    TotalSplits(calls, s, calls.Keys, t);
    TotalSplits(calls, s', calls.Keys, t);
    TotalUnchanged(calls, s, s', calls.Keys - {t});
  }

  lemma {:induction false} RunIsBounded(w: World, calls: map<nat, Call>, s: System, ts: seq<nat>)
    requires Known(calls, s) && Run(w, calls, true, s, ts)
    ensures var end := After(w, calls, true, s, ts);
            Known(calls, end) && |ts| + Total(calls, end, calls.Keys) <= Total(calls, s, calls.Keys)
    decreases ts
  {
    if ts != [] {
      StepFalls(w, calls, s, ts[0]);
      RunIsBounded(w, calls, Step(w, calls, true, s, ts[0]), ts[1..]);
    }
  }

  lemma RunFirst(w: World, calls: map<nat, Call>, locking: bool, s: System, t: nat, ts: seq<nat>)
    requires Enabled(w, calls, locking, s, t) && Run(w, calls, locking, Step(w, calls, locking, s, t), ts)
    ensures Run(w, calls, locking, s, [t] + ts)
    ensures After(w, calls, locking, s, [t] + ts) == After(w, calls, locking, Step(w, calls, locking, s, t), ts)
  {
    assert ([t] + ts)[1..] == ts;
  }

  lemma {:induction false} CanFinish(w: World, calls: map<nat, Call>, start: Value, s: System) returns (ts: seq<nat>)
    requires Inv(w, calls, start, s)
    ensures Run(w, calls, true, s, ts)
    ensures var end := After(w, calls, true, s, ts); Known(calls, end) && AllReplied(calls, end)
    decreases Total(calls, s, calls.Keys)
  {
    if AllReplied(calls, s) {
      ts := [];
    } else {
      var u := SomeoneCanMove(w, calls, start, s);
      StepFalls(w, calls, s, u);
      StepKeepsInv(w, calls, start, s, u);
      var rest := CanFinish(w, calls, start, Step(w, calls, true, s, u));
      ts := [u] + rest;
      RunFirst(w, calls, true, s, u, rest);
    }
  }

  /** Every schedule is finite, with at most five steps for each overload of each call and one
      more for each call, and every schedule can be completed so that all threads have replied:
      the outcome that `DispatchIsSerializable` describes is always reached. */
  lemma DispatchEnds(w: World, calls: map<nat, Call>, start: Value, ts: seq<nat>) returns (more: seq<nat>)
    requires Run(w, calls, true, Initial(start, calls), ts)
    ensures var s := After(w, calls, true, Initial(start, calls), ts);
            && Run(w, calls, true, s, more)
            && (var end := After(w, calls, true, s, more); Known(calls, end) && AllReplied(calls, end))
    ensures |ts| + |more| <= Total(calls, Initial(start, calls), calls.Keys)
  {
    var s := After(w, calls, true, Initial(start, calls), ts);
    InitialInv(w, calls, start);
    RunKeepsInv(w, calls, start, Initial(start, calls), ts);
    more := CanFinish(w, calls, start, s);
    RunIsBounded(w, calls, Initial(start, calls), ts);
    RunIsBounded(w, calls, s, more);
  }

  // ---------------------------------------------------------------------------------------
  // Without the mutex
  // ---------------------------------------------------------------------------------------

  /** Thread `t` is about to invoke an overload that accepts its call. */
  predicate AboutToInvoke(w: World, calls: map<nat, Call>, s: System, t: nat) {
    && Known(calls, s) && t in calls && s.pcs[t].Waiting?
    && Accepts(w, calls[t].overloads[s.pcs[t].k], calls[t].params)
  }

  function Effect(w: World, c: Call, k: nat, inst: Value): (Value, Outcome)
    requires k < |c.overloads| && Accepts(w, c.overloads[k], c.params)
  {
    Execute(w, c.overloads[k], inst, c.params)
  }

  /** A thread takes the (unused) mutex and reads the instance. */
  lemma EntersAndLoads(w: World, calls: map<nat, Call>, s: System, t: nat)
    requires AboutToInvoke(w, calls, s, t)
    ensures Run(w, calls, false, s, [t, t])
    ensures After(w, calls, false, s, [t, t])
      == s.(pcs := s.pcs[t := Loaded(s.pcs[t].k, s.inst)], order := s.order + [t])
  {
    var k := s.pcs[t].k;
    var s1 := s.(pcs := s.pcs[t := Holding(k)], order := s.order + [t]);
    assert Step(w, calls, false, s, t) == s1;
    var s2 := s1.(pcs := s1.pcs[t := Loaded(k, s.inst)]);
    assert Step(w, calls, false, s1, t) == s2;
    assert s1.pcs[t := Loaded(k, s.inst)] == s.pcs[t := Loaded(k, s.inst)];
    RunTwo(w, calls, s, t, t);
  }

  lemma RunTwo(w: World, calls: map<nat, Call>, s: System, t: nat, u: nat)
    requires Enabled(w, calls, false, s, t) && Enabled(w, calls, false, Step(w, calls, false, s, t), u)
    ensures Run(w, calls, false, s, [t, u])
    ensures After(w, calls, false, s, [t, u]) == Step(w, calls, false, Step(w, calls, false, s, t), u)
  {
    var s1 := Step(w, calls, false, s, t);
    assert [u] + [] == [u] && [t] + [u] == [t, u];
    RunFirst(w, calls, false, s1, u, []);
    RunFirst(w, calls, false, s, t, [u]);
  }

  /** Two threads that have both read the instance write it one after the other. */
  lemma SecondStoreWins(w: World, calls: map<nat, Call>, s: System, t: nat, u: nat, k: nat, l: nat)
    requires Known(calls, s) && t in calls && u in calls && t != u
    requires s.pcs[t] == Loaded(k, s.inst) && s.pcs[u] == Loaded(l, s.inst)
    requires Accepts(w, calls[t].overloads[k], calls[t].params) && Accepts(w, calls[u].overloads[l], calls[u].params)
    ensures Run(w, calls, false, s, [t, u])
    ensures var end := After(w, calls, false, s, [t, u]);
            && end.inst == Effect(w, calls[u], l, s.inst).0
            && end.pcs
               == s.pcs[t := Stored(k, Effect(w, calls[t], k, s.inst).1)]
                       [u := Stored(l, Effect(w, calls[u], l, s.inst).1)]
  {
    var s1 := Step(w, calls, false, s, t);
    assert s1.pcs[u] == s.pcs[u];
    RunTwo(w, calls, s, t, u);
  }

  /** The mutex is needed: whenever two threads are about to invoke, without it the schedule
      t, t, u, u, t, u is possible, on which the first one's effect is lost, though both calls
      succeed: the instance ends as if only the second had run, and both results were computed
      from the instance as it was before either. */
  lemma LostUpdateWithoutMutex(w: World, calls: map<nat, Call>, s: System, t: nat, u: nat)
    requires AboutToInvoke(w, calls, s, t) && AboutToInvoke(w, calls, s, u) && t != u
    ensures Run(w, calls, false, s, [t, t])
    ensures var s1 := After(w, calls, false, s, [t, t]);
            && Run(w, calls, false, s1, [u, u])
            && var s2 := After(w, calls, false, s1, [u, u]);
            && Run(w, calls, false, s2, [t, u])
            && var end := After(w, calls, false, s2, [t, u]);
            var k, l := s.pcs[t].k, s.pcs[u].k;
            && end.inst == Effect(w, calls[u], l, s.inst).0
            && t in end.pcs && end.pcs[t] == Stored(k, Effect(w, calls[t], k, s.inst).1)
            && u in end.pcs && end.pcs[u] == Stored(l, Effect(w, calls[u], l, s.inst).1)
  {
    EntersAndLoads(w, calls, s, t);
    var s1 := After(w, calls, false, s, [t, t]);
    EntersAndLoads(w, calls, s1, u);
    SecondStoreWins(w, calls, After(w, calls, false, s1, [u, u]), t, u, s.pcs[t].k, s.pcs[u].k);
  }
}
