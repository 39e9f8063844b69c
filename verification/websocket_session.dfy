/**
 One WebSocket connection: half-duplex reading and writing, and a timer that sends a ping to a
 silent peer and closes the connection when the ping brings no sign of life.
 */
module WebSocketSession {

  datatype ErrorCode = Success | OperationAborted | Closed | OtherError

  const PING_SECONDS := 15

  datatype Deadline = Never | At(seconds: int)

  /** The keep-alive state: `ping_state_`, the pings outstanding, and for the last ping when it
      was started and whether nothing was heard since. */
  datatype Ping = Ping(state: nat, pending: nat, started: int, quiet: bool, assertionFailed: bool)

  /** The timer: its expiry (`Never` is the latest time point), the waits outstanding, whether
      it shut the connection down and whether it stopped on an error. */
  datatype Timer = Timer(deadline: Deadline, waits: nat, shutDown: bool, failed: bool)

  /** The half-duplex exchange: the buffer, the operations outstanding, whether a handler left
      by an early exit, and the history of replies made and replies sent. */
  datatype Channel = Channel(
    buffer: string, accepts: nat, pendingReads: nat, pendingWrites: nat, ended: bool,
    replies: seq<string>, sent: seq<string>)

  datatype State = State(open: bool, ping: Ping, timer: Timer, channel: Channel)

  const FRESH: State :=
    State(false, Ping(0, 0, 0, false, false), Timer(Never, 0, false, false), Channel("", 0, 0, 0, false, [], []))

  predicate Expired(t: Timer, now: int) {
    t.deadline.At? && t.deadline.seconds <= now
  }

  function OnTimer(s: State, ec: ErrorCode, now: int): State {
    if ec != Success && ec != OperationAborted then s.(timer := s.timer.(failed := true))
    else if Expired(s.timer, now) then
      if s.open && s.ping.state == 0 then
        s.(ping := Ping(1, s.ping.pending + 1, now, true, s.ping.assertionFailed),
           timer := s.timer.(deadline := At(now + PING_SECONDS), waits := s.timer.waits + 1))
      else s.(timer := s.timer.(shutDown := true))
    else s.(timer := s.timer.(waits := s.timer.waits + 1))
  }

  function Activity(s: State, now: int): State {
    s.(ping := s.ping.(state := 0, quiet := false), timer := s.timer.(deadline := At(now + PING_SECONDS)))
  }

  function OnPing(s: State, ec: ErrorCode): State {
    if ec != Success then s
    else if s.ping.state == 1 then s.(ping := s.ping.(state := 2))
    else if s.ping.state == 0 then s
    else s.(ping := s.ping.(assertionFailed := true))
  }

  function OnAccept(s: State, ec: ErrorCode): State {
    if ec != Success then s.(channel := s.channel.(ended := true))
    else s.(open := true, channel := s.channel.(pendingReads := s.channel.pendingReads + 1))
  }

  /** Errors other than an abort or a close are reported, and the handler carries on. */
  function OnRead(s: State, ec: ErrorCode, reply: string, now: int): State {
    if ec == OperationAborted then s.(channel := s.channel.(ended := true))
    else if ec == Closed then s.(open := false, channel := s.channel.(ended := true))
    else
      Activity(s, now).(channel := s.channel.(
        buffer := reply, pendingWrites := s.channel.pendingWrites + 1, replies := s.channel.replies + [reply]))
  }

  function OnWrite(s: State, ec: ErrorCode): State {
    if ec != Success then s.(channel := s.channel.(ended := true))
    else
      s.(channel := s.channel.(
        sent := s.channel.sent + [s.channel.buffer], buffer := "", pendingReads := s.channel.pendingReads + 1))
  }

  function Accepted(s: State, now: int): State {
    var s' := OnTimer(s, Success, now);
    s'.(timer := s'.timer.(deadline := At(now + PING_SECONDS)),
        channel := s'.channel.(accepts := s'.channel.accepts + 1))
  }

  class Session {
    var open: bool
    var pingState: nat
    var deadline: Deadline
    var buffer: string
    var timerWaits: nat
    var accepts: nat
    var pendingReads: nat
    var pendingWrites: nat
    var pings: nat
    var shutDown: bool
    ghost var timerFailed: bool
    ghost var ended: bool
    ghost var assertionFailed: bool
    ghost var pingStarted: int
    ghost var quietSincePing: bool
    ghost var replies: seq<string>
    ghost var sent: seq<string>

    ghost function Now(): State
      reads this
    {
      State(open,
            Ping(pingState, pings, pingStarted, quietSincePing, assertionFailed),
            Timer(deadline, timerWaits, shutDown, timerFailed),
            Channel(buffer, accepts, pendingReads, pendingWrites, ended, replies, sent))
    }

    constructor ()
      ensures Now() == FRESH
    {
      open, pingState, deadline, buffer := false, 0, Never, "";
      timerWaits, accepts, pendingReads, pendingWrites, pings, shutDown := 0, 0, 0, 0, 0, false;
      timerFailed, ended, assertionFailed, pingStarted, quietSincePing := false, false, false, 0, false;
      replies, sent := [], [];
    }

    method DoAccept(now: int)
      modifies this
      ensures Now() == Accepted(old(Now()), now)
    {
      OnTimerDone(Success, now);
      deadline := At(now + PING_SECONDS);
      accepts := accepts + 1;
    }

    method OnAcceptDone(ec: ErrorCode)
      modifies this
      ensures Now() == OnAccept(old(Now()), ec)
    {
      if ec != Success {
        ended := true;
        return;
      }
      open := true;
      DoRead();
    }

    method OnTimerDone(ec: ErrorCode, now: int)
      modifies this`timerFailed, this`shutDown, this`timerWaits
      modifies this`pingState, this`deadline, this`pings, this`pingStarted, this`quietSincePing
      ensures Now() == OnTimer(old(Now()), ec, now)
    {
      if ec != Success && ec != OperationAborted {
        timerFailed := true;
        return;
      }
      if deadline.At? && deadline.seconds <= now {
        if open && pingState == 0 {
          SendPing(now);
        } else {
          shutDown := true;
          return;
        }
      }
      timerWaits := timerWaits + 1;
    }

    method SendPing(now: int)
      modifies this`pingState, this`deadline, this`pings, this`pingStarted, this`quietSincePing
      ensures pingState == 1 && deadline == At(now + PING_SECONDS) && pings == old(pings) + 1
      ensures pingStarted == now && quietSincePing
    {
      pingState := 1;
      deadline := At(now + PING_SECONDS);
      pings := pings + 1;
      pingStarted, quietSincePing := now, true;
    }

    method NoteActivity(now: int)
      modifies this
      ensures Now() == Activity(old(Now()), now)
    {
      pingState := 0;
      deadline := At(now + PING_SECONDS);
      quietSincePing := false;
    }

    method OnPingDone(ec: ErrorCode)
      modifies this
      ensures Now() == OnPing(old(Now()), ec)
    {
      if ec != Success {
        return;
      }
      if pingState == 1 {
        pingState := 2;
      } else if pingState != 0 {
        assertionFailed := true;
      }
    }

    method DoRead()
      modifies this`pendingReads
      ensures Now() == old(Now()).(channel := old(Now()).channel.(pendingReads := old(pendingReads) + 1))
    {
      pendingReads := pendingReads + 1;
    }

    method OnReadDone(ec: ErrorCode, reply: string, now: int)
      modifies this
      ensures Now() == OnRead(old(Now()), ec, reply, now)
    {
      if ec == OperationAborted {
        ended := true;
        return;
      }
      if ec == Closed {
        ended, open := true, false;
        return;
      }
      NoteActivity(now);
      buffer := reply;
      replies := replies + [reply];
      pendingWrites := pendingWrites + 1;
    }

    method OnWriteDone(ec: ErrorCode)
      modifies this
      ensures Now() == OnWrite(old(Now()), ec)
    {
      if ec != Success {
        ended := true;
        return;
      }
      sent := sent + [buffer];
      buffer := "";
      DoRead();
    }
  }
}
