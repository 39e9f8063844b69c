/**
 One HTTP connection: a reader and a writer that run at the same time, and between them a
 bounded queue of responses.  Asynchronous operations are modelled by what is outstanding:
 the environment completes them, in any order and with any outcome.
 */
module HttpSession {

  datatype Verb = Post | Options | OtherVerb

  datatype Request = Request(verb: Verb, upgrade: bool, body: string)

  datatype Response = Response(status: nat, body: string, needEof: bool)

  /** A request together with the two things the session does not decide: what the JSON-RPC
      layer replied, and whether the response ends the connection. */
  datatype Exchange = Exchange(request: Request, reply: string, needEof: bool)

  datatype ErrorCode = Success | OperationAborted | EndOfStream | OtherError

  /** The timer's expiry; `Upgraded` is the earliest time point, set to mark an upgrade. */
  datatype Deadline = Never | At(seconds: int) | Upgraded

  const LIMIT: nat := 8
  const IDLE_SECONDS := 15

  function Answer(x: Exchange): Response {
    match x.request.verb
    case Options => Response(200, "", x.needEof)
    case OtherVerb => Response(400, "Unknown HTTP-method", x.needEof)
    case Post => Response(200, x.reply, x.needEof)
  }

  function Answers(log: seq<Exchange>): seq<Response> {
    seq(|log|, i requires 0 <= i < |log| => Answer(log[i]))
  }

  /** The reads outstanding and started; `stopped` records that the read handler left by one of
      its early exits. */
  datatype Reader = Reader(pending: nat, started: nat, stopped: bool)

  /** The same for writes; `frontDelivered` records that the last response closed the connection,
      so that it was delivered but stays at the front of the queue. */
  datatype Writer = Writer(pending: seq<Response>, started: nat, stopped: bool, frontDelivered: bool)

  /** The timer: its expiry, the waits outstanding, whether it failed and whether it closed the
      socket, and when the last read was started. */
  datatype Timer = Timer(deadline: Deadline, waits: nat, failed: bool, socketClosed: bool, lastRead: int)

  datatype State = State(
    queue: seq<Response>, reader: Reader, writer: Writer, timer: Timer, sendShutdown: bool,
    log: seq<Exchange>, delivered: seq<Response>)

  predicate IsFull(s: State) {
    |s.queue| >= LIMIT
  }

  function StartRead(s: State, now: int): State {
    s.(reader := s.reader.(pending := s.reader.pending + 1, started := s.reader.started + 1),
       timer := s.timer.(deadline := At(now + IDLE_SECONDS), lastRead := now))
  }

  function StartWrite(writer: Writer, r: Response): Writer {
    writer.(pending := writer.pending + [r], started := writer.started + 1)
  }

  /** The queue takes a response and, if it is alone there, starts writing it. */
  function Send(s: State, r: Response): State {
    s.(queue := s.queue + [r], writer := if s.queue == [] then StartWrite(s.writer, r) else s.writer)
  }

  /** The queue drops the response that was written and starts the next one. */
  function DropFront(s: State): State
    requires s.queue != []
  {
    s.(queue := s.queue[1..], writer := if |s.queue| > 1 then StartWrite(s.writer, s.queue[1]) else s.writer)
  }

  function StopReading(s: State): State {
    s.(reader := s.reader.(stopped := true))
  }

  function OnRead(s: State, ec: ErrorCode, x: Exchange, now: int): State {
    if ec == OperationAborted then StopReading(s)
    else if ec == EndOfStream then StopReading(s).(sendShutdown := true)
    else if ec != Success then StopReading(s)
    else if x.request.upgrade then StopReading(s).(timer := s.timer.(deadline := Upgraded))
    else
      var s' := Send(s.(log := s.log + [x]), Answer(x));
      if IsFull(s') then s' else StartRead(s', now)
  }

  /** A write of `r` completed. */
  function OnWrite(s: State, ec: ErrorCode, r: Response, now: int): State {
    if ec != Success then s.(writer := s.writer.(stopped := true))
    else
      var s' := s.(delivered := s.delivered + [r]);
      if r.needEof then s'.(writer := s.writer.(stopped := true, frontDelivered := true), sendShutdown := true)
      else if s'.queue == [] then s'
      else if IsFull(s') then StartRead(DropFront(s'), now) else DropFront(s')
  }

  function Ticked(t: Timer, ec: ErrorCode, now: int): Timer {
    if ec != Success && ec != OperationAborted then t.(failed := true)
    else if t.deadline == Upgraded then t
    else if t.deadline.At? && t.deadline.seconds <= now then t.(socketClosed := true)
    else t.(waits := t.waits + 1)
  }

  function OnTimer(s: State, ec: ErrorCode, now: int): State {
    s.(timer := Ticked(s.timer, ec, now))
  }

  const FRESH: State :=
    State([], Reader(0, 0, false), Writer([], 0, false, false), Timer(Never, 0, false, false, 0), false, [], [])

  function Started(now: int): State {
    StartRead(OnTimer(FRESH, Success, now), now)
  }

  // ---------------------------------------------------------------------------------------
  // The session's objects
  // ---------------------------------------------------------------------------------------

  /** The asynchronous operations outstanding on the socket. */
  class Wire {
    var pendingReads: nat
    var pendingWrites: seq<Response>
    ghost var readsStarted: nat
    ghost var writesStarted: nat

    constructor ()
      ensures pendingReads == 0 && pendingWrites == [] && readsStarted == 0 && writesStarted == 0
    {
      pendingReads, pendingWrites, readsStarted, writesStarted := 0, [], 0, 0;
    }

    method AsyncRead()
      modifies this
      ensures pendingReads == old(pendingReads) + 1 && readsStarted == old(readsStarted) + 1
      ensures pendingWrites == old(pendingWrites) && writesStarted == old(writesStarted)
    {
      pendingReads := pendingReads + 1;
      readsStarted := readsStarted + 1;
    }

    method AsyncWrite(r: Response)
      modifies this
      ensures pendingWrites == old(pendingWrites) + [r] && writesStarted == old(writesStarted) + 1
      ensures pendingReads == old(pendingReads) && readsStarted == old(readsStarted)
    {
      pendingWrites := pendingWrites + [r];
      writesStarted := writesStarted + 1;
    }
  }

  /** The bounded queue of responses; the one in front is the one being written. */
  class ResponseQueue {
    const wire: Wire
    var items: seq<Response>

    constructor (wire: Wire)
      ensures this.wire == wire && items == []
    {
      this.wire := wire;
      items := [];
    }

    predicate Full()
      reads this
    {
      |items| >= LIMIT
    }

    /** Returns true if the caller should initiate a read. */
    method OnWrite() returns (wasFull: bool)
      requires items != []
      modifies this, wire
      ensures items == old(items)[1..] && wasFull == (|old(items)| >= LIMIT)
      ensures wire.pendingReads == old(wire.pendingReads) && wire.readsStarted == old(wire.readsStarted)
      ensures wire.pendingWrites == old(wire.pendingWrites) + if |old(items)| > 1 then [old(items)[1]] else []
      ensures wire.writesStarted == old(wire.writesStarted) + if |old(items)| > 1 then 1 else 0
    {
      wasFull := Full();
      items := items[1..];
      if items != [] {
        wire.AsyncWrite(items[0]);
      }
    }

    method Push(r: Response)
      modifies this, wire
      ensures items == old(items) + [r]
      ensures wire.pendingReads == old(wire.pendingReads) && wire.readsStarted == old(wire.readsStarted)
      ensures wire.pendingWrites == old(wire.pendingWrites) + if old(items) == [] then [r] else []
      ensures wire.writesStarted == old(wire.writesStarted) + if old(items) == [] then 1 else 0
    {
      items := items + [r];
      if |items| == 1 {
        wire.AsyncWrite(items[0]);
      }
    }
  }

  /** Exactly one response is sent for a request, on every path. */
  method HandleRequest(x: Exchange, send: ResponseQueue)
    modifies send, send.wire
    ensures send.items == old(send.items) + [Answer(x)]
    ensures send.wire.pendingReads == old(send.wire.pendingReads)
       && send.wire.readsStarted == old(send.wire.readsStarted)
    ensures send.wire.pendingWrites == old(send.wire.pendingWrites) + if old(send.items) == [] then [Answer(x)] else []
    ensures send.wire.writesStarted == old(send.wire.writesStarted) + if old(send.items) == [] then 1 else 0
  {
    if x.request.verb == Options {
      send.Push(Response(200, "", x.needEof));
      return;
    }
    if x.request.verb != Post {
      send.Push(Response(400, "Unknown HTTP-method", x.needEof));
      return;
    }
    send.Push(Response(200, x.reply, x.needEof));
  }

  class Session {
    const wire: Wire
    const queue: ResponseQueue
    var deadline: Deadline
    var timerWaits: nat
    var socketClosed: bool
    var sendShutdown: bool
    ghost var timerFailed: bool
    ghost var readStopped: bool
    ghost var writeStopped: bool
    ghost var frontDelivered: bool
    ghost var log: seq<Exchange>
    ghost var delivered: seq<Response>
    ghost var lastRead: int

    ghost predicate Valid()
      reads this, queue
    {
      queue.wire == wire
    }

    ghost function Now(): State
      reads this, queue, wire
    {
      State(queue.items,
            Reader(wire.pendingReads, wire.readsStarted, readStopped),
            Writer(wire.pendingWrites, wire.writesStarted, writeStopped, frontDelivered),
            Timer(deadline, timerWaits, timerFailed, socketClosed, lastRead),
            sendShutdown, log, delivered)
    }

    constructor ()
      ensures Valid() && fresh(queue) && fresh(wire) && Now() == FRESH
    {
      var w := new Wire();
      var q := new ResponseQueue(w);
      wire, queue := w, q;
      deadline, timerWaits, socketClosed, sendShutdown := Never, 0, false, false;
      timerFailed, readStopped, writeStopped, frontDelivered := false, false, false, false;
      log, delivered, lastRead := [], [], 0;
    }

    method Run(now: int)
      requires Valid()
      modifies this, queue, wire
      ensures Valid() && Now() == StartRead(OnTimer(old(Now()), Success, now), now)
    {
      OnTimerDone(Success, now);
      DoRead(now);
    }

    method DoRead(now: int)
      requires Valid()
      modifies this, wire
      ensures Valid() && Now() == StartRead(old(Now()), now)
    {
      deadline := At(now + IDLE_SECONDS);
      lastRead := now;
      wire.AsyncRead();
    }

    method OnTimerDone(ec: ErrorCode, now: int)
      requires Valid()
      modifies this
      ensures Valid() && Now() == OnTimer(old(Now()), ec, now)
    {
      if ec != Success && ec != OperationAborted {
        timerFailed := true;
        return;
      }
      if deadline == Upgraded {
        return;
      }
      if deadline.At? && deadline.seconds <= now {
        socketClosed := true;
        return;
      }
      timerWaits := timerWaits + 1;
    }

    method OnReadDone(ec: ErrorCode, x: Exchange, now: int)
      requires Valid()
      modifies this, queue, wire
      ensures Valid() && Now() == OnRead(old(Now()), ec, x, now)
    {
      if ec == OperationAborted {
        readStopped := true;
        return;
      }
      if ec == EndOfStream {
        readStopped := true;
        DoClose();
        return;
      }
      if ec != Success {
        readStopped := true;
        return;
      }
      if x.request.upgrade {
        readStopped := true;
        deadline := Upgraded;
        return;
      }
      log := log + [x];
      HandleRequest(x, queue);
      if !queue.Full() {
        DoRead(now);
      }
    }

    method OnWriteDone(ec: ErrorCode, r: Response, now: int)
      requires Valid() && queue.items != []
      modifies this, queue, wire
      ensures Valid() && Now() == OnWrite(old(Now()), ec, r, now)
    {
      if ec != Success {
        writeStopped := true;
        return;
      }
      delivered := delivered + [r];
      if r.needEof {
        writeStopped, frontDelivered := true, true;
        DoClose();
        return;
      }
      var wasFull := queue.OnWrite();
      if wasFull {
        DoRead(now);
      }
    }

    method DoClose()
      requires Valid()
      modifies this`sendShutdown
      ensures Valid() && Now() == old(Now()).(sendShutdown := true)
    {
      sendShutdown := true;
    }
  }
}
