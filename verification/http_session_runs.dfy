/**
 All runs of an HTTP session: the environment completes outstanding operations one at a time,
 in any order, with any outcome and at any later time.
 */
module HttpSessionRuns {
  import opened HttpSession

  datatype Event =
    | ReadDone(ec: ErrorCode, x: Exchange, now: int)
    | WriteDone(ec: ErrorCode, now: int)
    | TimerDone(ec: ErrorCode, now: int)

  predicate Enabled(s: State, e: Event) {
    match e
    case ReadDone(_, _, _) => s.reader.pending > 0
    case WriteDone(_, _) => s.writer.pending != []
    case TimerDone(_, _) => s.timer.waits > 0
  }

  /** The environment completes one of the outstanding operations. */
  function Taken(s: State, e: Event): State
    requires Enabled(s, e)
  {
    match e
    case ReadDone(_, _, _) => s.(reader := s.reader.(pending := s.reader.pending - 1))
    case WriteDone(_, _) => s.(writer := s.writer.(pending := s.writer.pending[1..]))
    case TimerDone(_, _) => s.(timer := s.timer.(waits := s.timer.waits - 1))
  }

  function Step(s: State, e: Event): State
    requires Enabled(s, e)
  {
    match e
    case ReadDone(ec, x, now) => OnRead(Taken(s, e), ec, x, now)
    case WriteDone(ec, now) => OnWrite(Taken(s, e), ec, s.writer.pending[0], now)
    case TimerDone(ec, now) => OnTimer(Taken(s, e), ec, now)
  }

  predicate Run(s: State, es: seq<Event>)
    decreases es
  {
    es == [] || (Enabled(s, es[0]) && Run(Step(s, es[0]), es[1..]))
  }

  function After(s: State, es: seq<Event>): State
    requires Run(s, es)
    decreases es
  {
    if es == [] then s else After(Step(s, es[0]), es[1..])
  }

  /** The responses still to be delivered. */
  function Undelivered(s: State): seq<Response> {
    if s.writer.frontDelivered && s.queue != [] then s.queue[1..] else s.queue
  }

  /** A read is outstanding exactly while there is room, until reading stops for good. */
  predicate ReaderInv(reader: Reader, queue: seq<Response>) {
    && |queue| <= LIMIT
    && (!reader.stopped ==> reader.pending == if |queue| < LIMIT then 1 else 0)
    && (reader.stopped ==> reader.pending == 0 && |queue| < LIMIT)
  }

  /** What is being written is exactly the front of the queue, until writing stops for good. */
  predicate WriterInv(writer: Writer, queue: seq<Response>) {
    && (!writer.stopped ==> writer.pending == if queue == [] then [] else [queue[0]])
    && (writer.stopped ==> writer.pending == [] && queue != [])
    && (writer.frontDelivered ==> writer.stopped)
  }

  /** One wait is pending until the timer fails, closes the socket or sees the upgrade. */
  predicate TimerInv(timer: Timer, reader: Reader) {
    && timer.waits <= 1
    && (timer.waits == 0 ==> timer.failed || timer.socketClosed || timer.deadline == Upgraded)
    && (timer.deadline == Upgraded || timer.deadline == At(timer.lastRead + IDLE_SECONDS))
    && (timer.deadline == Upgraded ==> reader.stopped)
  }

  /** What holds at every moment of every run, also after the early exits. */
  predicate Inv(s: State) {
    && ReaderInv(s.reader, s.queue)
    && WriterInv(s.writer, s.queue)
    && TimerInv(s.timer, s.reader)
    // nothing lost, nothing duplicated, nothing reordered
    && s.delivered + Undelivered(s) == Answers(s.log)
  }

  lemma AnswersAppend(log: seq<Exchange>, x: Exchange)
    ensures Answers(log + [x]) == Answers(log) + [Answer(x)]
  {
  }

  lemma StartedInv(now: int)
    ensures Inv(Started(now)) && !Started(now).reader.stopped && !Started(now).writer.stopped
  {
  }

  lemma ReadKeepsInv(s: State, ec: ErrorCode, x: Exchange, now: int)
    requires Inv(s) && Enabled(s, ReadDone(ec, x, now))
    ensures Inv(Step(s, ReadDone(ec, x, now)))
  {
    if ec == Success && !x.request.upgrade {
      var s' := Step(s, ReadDone(ec, x, now));
      AnswersAppend(s.log, x);
      assert s'.queue == s.queue + [Answer(x)];
      assert Undelivered(s') == Undelivered(s) + [Answer(x)];
      assert s.delivered + Undelivered(s') == s.delivered + Undelivered(s) + [Answer(x)];
    }
  }

  lemma WriteKeepsInv(s: State, ec: ErrorCode, now: int)
    requires Inv(s) && Enabled(s, WriteDone(ec, now))
    ensures Inv(Step(s, WriteDone(ec, now)))
  {
    var taken := Taken(s, WriteDone(ec, now));
    assert taken.writer.pending == [];
    if ec == Success {
      FrontIsDelivered(s);
      if !s.queue[0].needEof {
        OrdinaryWriteKeepsInv(s, taken, now);
      }
    }
  }

  lemma FrontIsDelivered(s: State)
    requires Inv(s) && s.writer.pending != []
    ensures !s.writer.stopped && !s.writer.frontDelivered && s.queue != [] && s.writer.pending == [s.queue[0]]
    ensures s.delivered + [s.queue[0]] + s.queue[1..] == Answers(s.log)
  {
    assert s.queue == [s.queue[0]] + s.queue[1..];
    assert s.delivered + [s.queue[0]] + s.queue[1..] == s.delivered + s.queue;
  }

  lemma OrdinaryWriteKeepsInv(s: State, taken: State, now: int)
    requires Inv(s) && s.queue != [] && !s.writer.stopped && !s.writer.frontDelivered && !s.queue[0].needEof
    requires taken == s.(writer := s.writer.(pending := []))
    requires s.delivered + [s.queue[0]] + s.queue[1..] == Answers(s.log)
    ensures Inv(OnWrite(taken, Success, s.queue[0], now))
  {
  }

  lemma StepKeepsInv(s: State, e: Event)
    requires Inv(s) && Enabled(s, e)
    ensures Inv(Step(s, e))
  {
    match e
    case ReadDone(ec, x, now) => ReadKeepsInv(s, ec, x, now);
    case WriteDone(ec, now) => WriteKeepsInv(s, ec, now);
    case TimerDone(_, _) =>
  }

  lemma {:induction false} RunKeepsInv(s: State, es: seq<Event>)
    requires Inv(s) && Run(s, es)
    ensures Inv(After(s, es))
    decreases es
  {
    if es != [] {
      StepKeepsInv(s, es[0]);
      RunKeepsInv(Step(s, es[0]), es[1..]);
    }
  }

  // ---------------------------------------------------------------------------------------
  // Order and conservation
  // ---------------------------------------------------------------------------------------

  /** The requests that arrive on a run: the reads that succeed and ask for no upgrade. */
  function Requests(es: seq<Event>): seq<Exchange> {
    if es == [] then []
    else
      var e := es[0];
      (if e.ReadDone? && e.ec == Success && !e.x.request.upgrade then [e.x] else []) + Requests(es[1..])
  }

  lemma {:induction false} LogIsRequests(s: State, es: seq<Event>)
    requires Run(s, es)
    ensures After(s, es).log == s.log + Requests(es)
    decreases es
  {
    if es != [] {
      LogIsRequests(Step(s, es[0]), es[1..]);
      LogStep(s, es[0]);
    }
  }

  lemma LogStep(s: State, e: Event)
    requires Enabled(s, e)
    ensures Step(s, e).log == s.log + Requests([e])
  {
    assert Requests([e][1..]) == [];
  }

  /** On every run the client has received a prefix of the answers to its requests, one for
      each and in order of arrival, and what it has not received is in the queue. */
  lemma PipeliningConserves(now: int, es: seq<Event>)
    requires Run(Started(now), es)
    ensures var s := After(Started(now), es);
            && s.delivered + Undelivered(s) == Answers(Requests(es))
            && s.delivered <= Answers(Requests(es))
            && |s.delivered| + |Undelivered(s)| == |Requests(es)|
  {
    StartedInv(now);
    RunKeepsInv(Started(now), es);
    LogIsRequests(Started(now), es);
  }

  /** What a request is answered with, by its method: the JSON-RPC layer's reply, nothing, or a
      complaint. */
  predicate AnswersRequest(x: Exchange, r: Response) {
    && r.needEof == x.needEof
    && (x.request.verb == Post ==> r.status == 200 && r.body == x.reply)
    && (x.request.verb == Options ==> r.status == 200 && r.body == "")
    && (x.request.verb == OtherVerb ==> r.status == 400 && r.body == "Unknown HTTP-method")
  }

  /** On every run, the responses delivered and the ones still queued, in this order, are one for
      each request that arrived, each of them the answer to that request. */
  lemma EachRequestIsAnswered(now: int, es: seq<Event>)
    requires Run(Started(now), es)
    ensures var s := After(Started(now), es);
            var responses := s.delivered + Undelivered(s);
            && |responses| == |Requests(es)|
            && forall i :: 0 <= i < |responses| ==> AnswersRequest(Requests(es)[i], responses[i])
  {
    PipeliningConserves(now, es);
    forall i | 0 <= i < |Requests(es)| ensures AnswersRequest(Requests(es)[i], Answers(Requests(es))[i]) {
      AnswerIsByVerb(Requests(es)[i]);
    }
  }

  lemma AnswerIsByVerb(x: Exchange)
    ensures AnswersRequest(x, Answer(x))
  {
  }

  // ---------------------------------------------------------------------------------------
  // Bounds, and no stall
  // ---------------------------------------------------------------------------------------

  /** Until an exit is taken a read is outstanding exactly when there is room, a write exactly
      when there is a response, at most one of each, and always one of the two. */
  lemma BoundedAndBusy(now: int, es: seq<Event>)
    requires Run(Started(now), es)
    ensures var s := After(Started(now), es);
            && |s.queue| <= 8
            && s.reader.pending <= 1 && |s.writer.pending| <= 1
            && (!s.reader.stopped ==> (s.reader.pending == 1 <==> |s.queue| < 8))
            && (!s.writer.stopped ==> (|s.writer.pending| == 1 <==> s.queue != []))
            && (!s.reader.stopped && !s.writer.stopped ==> s.reader.pending + |s.writer.pending| >= 1)
            && (s.writer.pending != [] ==> s.queue != [] && s.writer.pending[0] == s.queue[0])
  {
    StartedInv(now);
    RunKeepsInv(Started(now), es);
  }

  // ---------------------------------------------------------------------------------------
  // Stopping is permanent
  // ---------------------------------------------------------------------------------------

  /** After end of stream, an upgrade or a failed read, no read is ever started again and no
      further request is taken. */
  lemma {:induction false} ReadStopIsPermanent(s: State, es: seq<Event>)
    requires Inv(s) && s.reader.stopped && Run(s, es)
    ensures After(s, es).reader.stopped
    ensures After(s, es).reader.started == s.reader.started && After(s, es).log == s.log
    decreases es
  {
    if es != [] {
      StepKeepsInv(s, es[0]);
      ReadStopIsPermanent(Step(s, es[0]), es[1..]);
    }
  }

  lemma WriteStopStep(s: State, e: Event)
    requires Inv(s) && s.writer.stopped && Enabled(s, e)
    ensures var s' := Step(s, e);
            && s'.writer.stopped && s'.writer.started == s.writer.started && s'.delivered == s.delivered
            && |s'.log| - |s.log| == |s'.queue| - |s.queue|
  {
  }

  /** After a response that closes, or a failed write, no write is ever started again; requests
      that still arrive are queued, one entry each and at most up to the limit. */
  lemma {:induction false} WriteStopIsPermanent(s: State, es: seq<Event>)
    requires Inv(s) && s.writer.stopped && Run(s, es)
    ensures var s' := After(s, es);
            && s'.writer.stopped && s'.writer.started == s.writer.started && s'.delivered == s.delivered
            && |s'.log| - |s.log| == |s'.queue| - |s.queue| && |s'.queue| <= 8
    decreases es
  {
    if es == [] {
      assert |s.queue| >= 1;
    } else {
      StepKeepsInv(s, es[0]);
      WriteStopStep(s, es[0]);
      WriteStopIsPermanent(Step(s, es[0]), es[1..]);
    }
  }

  function Drain(n: nat, now: int): seq<Event> {
    if n == 0 then [] else [WriteDone(Success, now)] + Drain(n - 1, now)
  }

  /** Pending responses still go out, whether or not the reader stopped: as many successful
      writes as there are responses up to and including the first one that closes the
      connection, or any fewer, deliver the front of the queue. */
  lemma {:induction false} PendingWritesComplete(s: State, n: nat, now: int)
    requires Inv(s) && !s.writer.stopped && n <= |s.queue|
    requires forall i :: 0 <= i < n - 1 ==> !s.queue[i].needEof
    ensures Run(s, Drain(n, now))
    ensures After(s, Drain(n, now)).delivered == s.delivered + s.queue[..n]
    decreases n
  {
    if n == 0 {
      assert s.delivered + s.queue[..0] == s.delivered;
    } else {
      var s' := FrontGoesOut(s, now);
      if n > 1 {
        assert forall i :: 0 <= i < n - 2 ==> s'.queue[i] == s.queue[i + 1];
        PendingWritesComplete(s', n - 1, now);
      }
      RunFirst(s, WriteDone(Success, now), Drain(n - 1, now));
      FrontFirst(s.delivered, s.queue, n);
    }
  }

  lemma FrontFirst(delivered: seq<Response>, queue: seq<Response>, n: nat)
    requires 0 < n <= |queue|
    ensures delivered + [queue[0]] + queue[1..][..n - 1] == delivered + queue[..n]
  {
    assert queue[..n] == [queue[0]] + queue[1..][..n - 1];
  }

  lemma RunFirst(s: State, e: Event, es: seq<Event>)
    requires Enabled(s, e) && Run(Step(s, e), es)
    ensures Run(s, [e] + es) && After(s, [e] + es) == After(Step(s, e), es)
  {
    assert ([e] + es)[1..] == es;
  }

  lemma FrontGoesOut(s: State, now: int) returns (s': State)
    requires Inv(s) && !s.writer.stopped && s.queue != []
    ensures Enabled(s, WriteDone(Success, now)) && s' == Step(s, WriteDone(Success, now))
    ensures && Inv(s') && s'.delivered == s.delivered + [s.queue[0]]
            && (s'.writer.stopped <==> s.queue[0].needEof)
            && (!s'.writer.stopped ==> s'.queue == s.queue[1..])
  {
    StepKeepsInv(s, WriteDone(Success, now));
    s' := Step(s, WriteDone(Success, now));
  }

  lemma WritingStep(s: State, e: Event)
    requires Inv(s) && !s.writer.stopped && Enabled(s, e)
    ensures var s' := Step(s, e);
            || (s'.delivered == s.delivered && s.queue <= s'.queue)
            || (s.queue != [] && s'.delivered == s.delivered + [s.queue[0]]
                && if s.queue[0].needEof then s'.writer.stopped else s'.queue == s.queue[1..])
  {
  }

  /** Nothing goes out after a response that closes the connection: on every run at most the
      queued responses up to and including that one are delivered. */
  lemma {:induction false} ClosingResponseIsLast(s: State, es: seq<Event>, k: nat)
    requires Inv(s) && !s.writer.stopped && k < |s.queue| && s.queue[k].needEof && Run(s, es)
    ensures |After(s, es).delivered| <= |s.delivered| + k + 1
    decreases es
  {
    if es != [] {
      var s', rest := Step(s, es[0]), es[1..];
      StepKeepsInv(s, es[0]);
      WritingStep(s, es[0]);
      if s'.writer.stopped {
        WriteStopIsPermanent(s', rest);
      } else if s'.delivered == s.delivered {
        ClosingResponseIsLast(s', rest, k);
      } else {
        ClosingResponseIsLast(s', rest, k - 1);
      }
    }
  }

  /** Every request read so far can still be answered if and only if no response in the queue
      but the last closes the connection; then as many successful writes as the queue is long
      are such a run.  A closing response in front of another one loses what is behind it. */
  lemma AllDeliveredExactly(s: State, now: int)
    requires Inv(s) && !s.writer.stopped
    ensures (exists es :: Run(s, es) && After(s, es).delivered == Answers(s.log))
            <==> (forall i :: 0 <= i < |s.queue| - 1 ==> !s.queue[i].needEof)
    ensures (forall i :: 0 <= i < |s.queue| - 1 ==> !s.queue[i].needEof) ==>
              Run(s, Drain(|s.queue|, now)) && After(s, Drain(|s.queue|, now)).delivered == Answers(s.log)
  {
    assert s.delivered + s.queue == Answers(s.log);
    if k :| 0 <= k < |s.queue| - 1 && s.queue[k].needEof {
      forall es | Run(s, es) ensures After(s, es).delivered != Answers(s.log) {
        ClosingResponseIsLast(s, es, k);
      }
    } else {
      PendingWritesComplete(s, |s.queue|, now);
      assert s.queue[..|s.queue|] == s.queue;
    }
  }

  // ---------------------------------------------------------------------------------------
  // The timer
  // ---------------------------------------------------------------------------------------

  /** The timer closes the socket exactly when it completes fifteen seconds or more after the
      last read was started, and never after an upgrade; otherwise it keeps waiting. */
  lemma TimerClosesExactly(s: State, ec: ErrorCode, now: int)
    requires Inv(s) && !s.timer.socketClosed && Enabled(s, TimerDone(ec, now))
    requires ec == Success || ec == OperationAborted
    ensures var s' := Step(s, TimerDone(ec, now));
            && (s'.timer.socketClosed <==> s.timer.deadline != Upgraded && now >= s.timer.lastRead + 15)
            && (s'.timer.waits == 1 <==> s.timer.deadline != Upgraded && now < s.timer.lastRead + 15)
  {
  }

  /** No session is forgotten, also when its reader and writer have both stopped: on every run,
      unless the timer failed, the socket was closed or the connection was upgraded, a timer wait
      is pending, and its completion fifteen seconds after the last read closes the socket. */
  lemma AlwaysReclaimed(start: int, es: seq<Event>, ec: ErrorCode, now: int)
    requires Run(Started(start), es) && (ec == Success || ec == OperationAborted)
    ensures var s := After(Started(start), es);
            !s.timer.failed && !s.timer.socketClosed && s.timer.deadline != Upgraded ==>
              && Enabled(s, TimerDone(ec, now))
              && (now >= s.timer.lastRead + 15 ==> Step(s, TimerDone(ec, now)).timer.socketClosed)
  {
    StartedInv(start);
    RunKeepsInv(Started(start), es);
  }

  /** A wait that ends in any other error is the last one, and closes nothing. */
  lemma FailedTimerStops(s: State, ec: ErrorCode, now: int)
    requires Inv(s) && Enabled(s, TimerDone(ec, now)) && ec != Success && ec != OperationAborted
    ensures var s' := Step(s, TimerDone(ec, now));
            s'.timer.waits == 0 && s'.timer.failed && s'.timer.socketClosed == s.timer.socketClosed
  {
  }

  /** The completion of `e` starts a read: one more is outstanding than `e` left. */
  predicate StartsRead(s: State, e: Event)
    requires Enabled(s, e)
  {
    Step(s, e).reader.pending > Taken(s, e).reader.pending
  }

  function Time(e: Event): int {
    e.now
  }

  /** When the last read of the run was started, the first one being started at `t`. */
  function LastReadStart(s: State, es: seq<Event>, t: int): int
    requires Run(s, es)
    decreases es
  {
    if es == [] then t
    else LastReadStart(Step(s, es[0]), es[1..], if StartsRead(s, es[0]) then Time(es[0]) else t)
  }

  predicate IsUpgrade(e: Event) {
    e.ReadDone? && e.ec == Success && e.x.request.upgrade
  }

  /** On every run the deadline is fifteen seconds after the last read was started, unless some
      request asked for an upgrade, which marks the deadline for good. */
  lemma DeadlineExactly(start: int, es: seq<Event>)
    requires Run(Started(start), es)
    ensures After(Started(start), es).timer.deadline ==
              if exists i :: 0 <= i < |es| && IsUpgrade(es[i]) then Upgraded
              else At(LastReadStart(Started(start), es, start) + 15)
  {
    StartedInv(start);
    DeadlineFrom(Started(start), es, start);
  }

  lemma DeadlineStep(s: State, e: Event)
    requires Inv(s) && Enabled(s, e)
    ensures Step(s, e).timer.deadline ==
              if IsUpgrade(e) then Upgraded
              else if StartsRead(s, e) then At(Time(e) + 15)
              else s.timer.deadline
    ensures s.timer.deadline == Upgraded ==> !StartsRead(s, e) && !e.ReadDone?
  {
  }

  lemma {:induction false} DeadlineFrom(s: State, es: seq<Event>, t: int)
    requires Inv(s) && Run(s, es) && (s.timer.deadline == Upgraded || s.timer.deadline == At(t + 15))
    ensures After(s, es).timer.deadline ==
              if s.timer.deadline == Upgraded || exists i :: 0 <= i < |es| && IsUpgrade(es[i]) then Upgraded
              else At(LastReadStart(s, es, t) + 15)
    decreases es
  {
    if es != [] {
      var s', rest := Step(s, es[0]), es[1..];
      StepKeepsInv(s, es[0]);
      DeadlineStep(s, es[0]);
      DeadlineFrom(s', rest, if StartsRead(s, es[0]) then Time(es[0]) else t);
      ExistsShift(es);
    }
  }

  lemma ExistsShift(es: seq<Event>)
    requires es != []
    ensures (exists i :: 0 <= i < |es| && IsUpgrade(es[i]))
            <==> IsUpgrade(es[0]) || exists i :: 0 <= i < |es[1..]| && IsUpgrade(es[1..][i])
  {
    if i :| 0 <= i < |es[1..]| && IsUpgrade(es[1..][i]) {
      assert IsUpgrade(es[i + 1]);
    }
    if i :| 0 < i < |es| && IsUpgrade(es[i]) {
      assert IsUpgrade(es[1..][i - 1]);
    }
  }

  /** The peer closed its side, or a response that ends the connection went out. */
  predicate EndsConnection(s: State, e: Event)
    requires Enabled(s, e)
  {
    || (e.ReadDone? && e.ec == EndOfStream)
    || (e.WriteDone? && e.ec == Success && s.writer.pending[0].needEof)
  }

  predicate Ended(s: State, es: seq<Event>)
    requires Run(s, es)
    decreases es
  {
    es != [] && (EndsConnection(s, es[0]) || Ended(Step(s, es[0]), es[1..]))
  }

  /** On every run the sending side is shut down exactly when the connection was ended. */
  lemma ShutDownExactly(start: int, es: seq<Event>)
    requires Run(Started(start), es)
    ensures After(Started(start), es).sendShutdown <==> Ended(Started(start), es)
  {
    ShutDownFrom(Started(start), es);
  }

  lemma {:induction false} ShutDownFrom(s: State, es: seq<Event>)
    requires Run(s, es)
    ensures After(s, es).sendShutdown <==> s.sendShutdown || Ended(s, es)
    decreases es
  {
    if es != [] {
      ShutDownStep(s, es[0]);
      ShutDownFrom(Step(s, es[0]), es[1..]);
    }
  }

  lemma ShutDownStep(s: State, e: Event)
    requires Enabled(s, e)
    ensures Step(s, e).sendShutdown <==> s.sendShutdown || EndsConnection(s, e)
  {
  }
}
