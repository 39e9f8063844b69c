/** All runs of a WebSocket session, and what its keep-alive timer may and must do on them. */
module WebSocketSessionRuns {
  import opened WebSocketSession

  datatype Event =
    | AcceptDone(ec: ErrorCode)
    | TimerDone(ec: ErrorCode, now: int)
    | PingDone(ec: ErrorCode)
    | ControlFrame(now: int)
    | ReadDone(ec: ErrorCode, reply: string, now: int)
    | WriteDone(ec: ErrorCode)

  predicate Enabled(s: State, e: Event) {
    match e
    case AcceptDone(_) => s.channel.accepts > 0
    case TimerDone(_, _) => s.timer.waits > 0
    case PingDone(_) => s.ping.pending > 0
    case ControlFrame(_) => s.channel.pendingReads > 0
    case ReadDone(_, _, _) => s.channel.pendingReads > 0
    case WriteDone(_) => s.channel.pendingWrites > 0
  }

  /** The environment completes one of the outstanding operations. */
  function Taken(s: State, e: Event): State
    requires Enabled(s, e)
  {
    match e
    case AcceptDone(_) => s.(channel := s.channel.(accepts := s.channel.accepts - 1))
    case TimerDone(_, _) => s.(timer := s.timer.(waits := s.timer.waits - 1))
    case PingDone(_) => s.(ping := s.ping.(pending := s.ping.pending - 1))
    case ControlFrame(_) => s
    case ReadDone(_, _, _) => s.(channel := s.channel.(pendingReads := s.channel.pendingReads - 1))
    case WriteDone(_) => s.(channel := s.channel.(pendingWrites := s.channel.pendingWrites - 1))
  }

  function Step(s: State, e: Event): State
    requires Enabled(s, e)
  {
    match e
    case AcceptDone(ec) => OnAccept(Taken(s, e), ec)
    case TimerDone(ec, now) => OnTimer(Taken(s, e), ec, now)
    case PingDone(ec) => OnPing(Taken(s, e), ec)
    case ControlFrame(now) => Activity(s, now)
    case ReadDone(ec, reply, now) => OnRead(Taken(s, e), ec, reply, now)
    case WriteDone(ec) => OnWrite(Taken(s, e), ec)
  }

  predicate Run(s: State, es: seq<Event>)
    decreases es
  {
    es == [] || (Enabled(s, es[0]) && Run(Step(s, es[0]), es[1..]))
  }

  function After(s: State, es: seq<Event>): State
    requires Run(s, es)
    decreases es
  {
    if es == [] then s else After(Step(s, es[0]), es[1..])
  }

  predicate Inv(s: State) {
    // one timer wait is pending while the timer lives
    && s.timer.waits == (if s.timer.shutDown || s.timer.failed then 0 else 1)
    && s.timer.deadline.At? && s.ping.state <= 2
    && (s.ping.state != 0 ==> s.ping.quiet && s.timer.deadline == At(s.ping.started + PING_SECONDS))
    && (s.open ==> s.channel.accepts == 0)
    && ChannelInv(s.channel)
  }

  predicate ChannelInv(c: Channel) {
    // half duplex: one of accept, read and write is outstanding until the session ends
    && c.accepts + c.pendingReads + c.pendingWrites == (if c.ended then 0 else 1)
    // replies go out one by one, in order
    && (c.pendingReads > 0 || c.accepts > 0 ==> c.buffer == "" && c.sent == c.replies)
    && (c.pendingWrites > 0 ==> c.sent + [c.buffer] == c.replies)
    && c.sent <= c.replies && |c.replies| - |c.sent| <= 1
  }

  lemma AcceptedInv(now: int)
    ensures Inv(Accepted(FRESH, now))
  {
  }

  lemma StepKeepsInv(s: State, e: Event)
    requires Inv(s) && Enabled(s, e)
    ensures Inv(Step(s, e))
  {
  }

  lemma {:induction false} RunKeepsInv(s: State, es: seq<Event>)
    requires Inv(s) && Run(s, es)
    ensures Inv(After(s, es))
    decreases es
  {
    if es != [] {
      StepKeepsInv(s, es[0]);
      RunKeepsInv(Step(s, es[0]), es[1..]);
    }
  }

  // ---------------------------------------------------------------------------------------
  // When the timer shuts the connection down
  // ---------------------------------------------------------------------------------------

  /** A completed wait finds the deadline passed. */
  predicate FindsExpired(s: State, e: Event) {
    e.TimerDone? && (e.ec == Success || e.ec == OperationAborted) && Expired(s.timer, e.now)
  }

  /** This event starts a ping. */
  predicate StartsPing(s: State, e: Event) {
    FindsExpired(s, e) && s.open && s.ping.state == 0
  }

  /** Something is heard from the peer: a control frame, or a read that did not end the session. */
  predicate Hears(e: Event) {
    e.ControlFrame? || (e.ReadDone? && e.ec != OperationAborted && e.ec != Closed)
  }

  predicate Unheard(es: seq<Event>) {
    forall i :: 0 <= i < |es| ==> !Hears(es[i])
  }

  /** On the run some event starts a ping, fifteen seconds or more before `now`, and nothing is
      heard from then on. */
  predicate PingedInSilence(s: State, es: seq<Event>, now: int)
    requires Run(s, es)
    decreases es
  {
    es != []
    && ((StartsPing(s, es[0]) && es[0].now + 15 <= now && Unheard(es[1..]))
        || PingedInSilence(Step(s, es[0]), es[1..], now))
  }

  lemma QuietStep(s: State, e: Event)
    requires Enabled(s, e)
    ensures var s' := Step(s, e);
            if StartsPing(s, e) then s'.ping.quiet && s'.ping.started == e.now && !Hears(e)
            else s'.ping.quiet ==> s.ping.quiet && s'.ping.started == s.ping.started && !Hears(e)
  {
  }

  /** What the ping state says about the run that led to it. */
  lemma {:induction false} QuietSincePing(s: State, es: seq<Event>, now: int)
    requires Run(s, es)
    requires var end := After(s, es); end.ping.quiet && end.ping.started + 15 <= now
    ensures (s.ping.quiet && s.ping.started == After(s, es).ping.started && Unheard(es)) || PingedInSilence(s, es, now)
    decreases es
  {
    if es != [] {
      var s', rest := Step(s, es[0]), es[1..];
      QuietStep(s, es[0]);
      QuietSincePing(s', rest, now);
      if !PingedInSilence(s', rest, now) {
        assert Unheard(rest);
        forall i | 0 <= i < |es| ensures !Hears(es[i]) {
          if i > 0 {
            assert es[i] == rest[i - 1];
          }
        }
      }
    }
  }

  /** On every run: a completed timer wait shuts an open connection down only if on that run a
      ping was started at least fifteen seconds before and nothing was heard since; otherwise
      one wait stays pending.  Before the handshake and after a close, an expiry always shuts
      down. */
  lemma TimerIsSound(start: int, es: seq<Event>, ec: ErrorCode, now: int)
    requires Run(Accepted(FRESH, start), es)
    requires var s := After(Accepted(FRESH, start), es); Enabled(s, TimerDone(ec, now))
    requires ec == Success || ec == OperationAborted
    ensures var s := After(Accepted(FRESH, start), es);
            var s' := Step(s, TimerDone(ec, now));
            && (s'.timer.shutDown && s.open ==> PingedInSilence(Accepted(FRESH, start), es, now))
            && (s'.timer.shutDown <==> Expired(s.timer, now) && !(s.open && s.ping.state == 0))
            && (!s'.timer.shutDown ==> s'.timer.waits == 1)
  {
    AcceptedInv(start);
    RunKeepsInv(Accepted(FRESH, start), es);
    var s := After(Accepted(FRESH, start), es);
    if s.ping.quiet && s.ping.started + 15 <= now {
      QuietSincePing(Accepted(FRESH, start), es, now);
    }
  }

  /** How many of the timer's completions find the deadline passed. */
  function Expiries(s: State, es: seq<Event>): nat
    requires Run(s, es)
    decreases es
  {
    if es == [] then 0
    else
      (if FindsExpired(s, es[0]) then 1 else 0) + Expiries(Step(s, es[0]), es[1..])
  }

  /** Nothing is heard from the peer. */
  predicate Silent(es: seq<Event>) {
    forall i :: 0 <= i < |es| ==> es[i].TimerDone? || es[i].PingDone? || es[i].WriteDone?
  }

  lemma SilentStep(s: State, e: Event)
    requires Inv(s) && Enabled(s, e) && (e.TimerDone? || e.PingDone? || e.WriteDone?)
    ensures var s' := Step(s, e);
            && (s.timer.shutDown ==> s'.timer.shutDown && !FindsExpired(s, e))
            && (FindsExpired(s, e) && !(s.open && s.ping.state == 0) ==> s'.timer.shutDown)
            && (FindsExpired(s, e) && s.open && s.ping.state == 0 ==> s'.ping.state != 0)
            && (!FindsExpired(s, e) ==> s'.open == s.open && (s'.ping.state == 0 <==> s.ping.state == 0))
  {
  }

  /** A silent session is shut down by its second expiry, and by its first when a ping is
      already waiting for an answer. */
  lemma {:induction false} SilenceIsBounded(s: State, es: seq<Event>)
    requires Inv(s) && Run(s, es) && Silent(es)
    ensures var due := if s.open && s.ping.state == 0 then 2 else 1;
            Expiries(s, es) <= due && (Expiries(s, es) == due ==> After(s, es).timer.shutDown)
    ensures s.timer.shutDown ==> After(s, es).timer.shutDown
    decreases es
  {
    if es != [] {
      var e, s' := es[0], Step(s, es[0]);
      StepKeepsInv(s, e);
      SilentStep(s, e);
      SilenceIsBounded(s', es[1..]);
      if s'.timer.shutDown {
        NoTimerAfterShutDown(s', es[1..]);
      }
    }
  }

  lemma {:induction false} NoTimerAfterShutDown(s: State, es: seq<Event>)
    requires Inv(s) && Run(s, es) && s.timer.shutDown
    ensures After(s, es).timer.shutDown && Expiries(s, es) == 0
    decreases es
  {
    if es != [] {
      StepKeepsInv(s, es[0]);
      NoTimerAfterShutDown(Step(s, es[0]), es[1..]);
    }
  }

  // ---------------------------------------------------------------------------------------
  // Replies
  // ---------------------------------------------------------------------------------------

  /** The replies that a run calls for: one for each read, but for those that end the session. */
  function Replies(es: seq<Event>): seq<string> {
    if es == [] then []
    else (if es[0].ReadDone? && Hears(es[0]) then [es[0].reply] else []) + Replies(es[1..])
  }

  lemma {:induction false} RepliesRecorded(s: State, es: seq<Event>)
    requires Run(s, es)
    ensures After(s, es).channel.replies == s.channel.replies + Replies(es)
    decreases es
  {
    if es != [] {
      ReplyStep(s, es[0]);
      RepliesRecorded(Step(s, es[0]), es[1..]);
    }
  }

  lemma ReplyStep(s: State, e: Event)
    requires Enabled(s, e)
    ensures Step(s, e).channel.replies == s.channel.replies + Replies([e])
  {
    assert Replies([e][1..]) == [];
  }

  /** On every run, also after the session has ended, what was sent is the replies to the messages
      read, in order, but for at most the last one; until then the last one is missing exactly
      while it is written, and it is what is in the buffer. */
  lemma RepliesInOrder(start: int, es: seq<Event>)
    requires Run(Accepted(FRESH, start), es)
    ensures var c := After(Accepted(FRESH, start), es).channel;
            && c.sent <= Replies(es) && |Replies(es)| - |c.sent| <= 1
            && (!c.ended ==> |Replies(es)| - |c.sent| == c.pendingWrites)
            && (c.pendingWrites > 0 ==> |c.sent| < |Replies(es)| && c.buffer == Replies(es)[|c.sent|])
  {
    AcceptedInv(start);
    RunKeepsInv(Accepted(FRESH, start), es);
    RepliesRecorded(Accepted(FRESH, start), es);
    var c := After(Accepted(FRESH, start), es).channel;
    assert c.replies == Replies(es);
    if c.pendingWrites > 0 {
      assert (c.sent + [c.buffer])[|c.sent|] == c.buffer;
    }
  }

  // ---------------------------------------------------------------------------------------
  // Deadline and stream
  // ---------------------------------------------------------------------------------------

  function Time(e: Event): int
    requires Hears(e) || e.TimerDone?
  {
    e.now
  }

  /** When the run last heard something or started a ping; it began at `t`. */
  function LastSign(s: State, es: seq<Event>, t: int): int
    requires Run(s, es)
    decreases es
  {
    if es == [] then t
    else
      LastSign(Step(s, es[0]), es[1..], if Hears(es[0]) || StartsPing(s, es[0]) then Time(es[0]) else t)
  }

  /** On every run the deadline is fifteen seconds after something was last heard, a ping was last
      started, or the session began. */
  lemma DeadlineExactly(start: int, es: seq<Event>)
    requires Run(Accepted(FRESH, start), es)
    ensures After(Accepted(FRESH, start), es).timer.deadline == At(LastSign(Accepted(FRESH, start), es, start) + 15)
  {
    DeadlineFrom(Accepted(FRESH, start), es, start);
  }

  lemma {:induction false} DeadlineFrom(s: State, es: seq<Event>, t: int)
    requires Run(s, es) && s.timer.deadline == At(t + 15)
    ensures After(s, es).timer.deadline == At(LastSign(s, es, t) + 15)
    decreases es
  {
    if es != [] {
      var e := es[0];
      DeadlineStep(s, e);
      DeadlineFrom(Step(s, e), es[1..], if Hears(e) || StartsPing(s, e) then Time(e) else t);
    }
  }

  lemma DeadlineStep(s: State, e: Event)
    requires Enabled(s, e)
    ensures Step(s, e).timer.deadline ==
              if Hears(e) || StartsPing(s, e) then At(Time(e) + 15) else s.timer.deadline
  {
  }

  /** A wait that ends in any other error is the last one, and shuts nothing down. */
  lemma FailedTimerStops(s: State, ec: ErrorCode, now: int)
    requires Inv(s) && Enabled(s, TimerDone(ec, now)) && ec != Success && ec != OperationAborted
    ensures var s' := Step(s, TimerDone(ec, now));
            s'.timer.waits == 0 && s'.timer.failed && s'.timer.shutDown == s.timer.shutDown && s'.ping == s.ping
  {
  }

  predicate Opens(e: Event) {
    e == AcceptDone(Success)
  }

  predicate Closes(e: Event) {
    e.ReadDone? && e.ec == Closed
  }

  /** The stream is open after the run: it was opened, and not closed since. */
  predicate OpenAfter(open: bool, es: seq<Event>)
    decreases es
  {
    if es == [] then open
    else OpenAfter(if Opens(es[0]) then true else if Closes(es[0]) then false else open, es[1..])
  }

  /** On every run the stream is open exactly from a successful handshake to the peer's close. */
  lemma {:induction false} OpenExactly(s: State, es: seq<Event>)
    requires Run(s, es)
    ensures After(s, es).open <==> OpenAfter(s.open, es)
    decreases es
  {
    if es != [] {
      OpenExactly(Step(s, es[0]), es[1..]);
    }
  }

  // ---------------------------------------------------------------------------------------
  // The assertion in the ping handler
  // ---------------------------------------------------------------------------------------

  /** Each ping completes before the next one starts. */
  predicate PromptPings(s: State, es: seq<Event>)
    requires Run(s, es)
    decreases es
  {
    es == [] || ((StartsPing(s, es[0]) ==> s.ping.pending == 0) && PromptPings(Step(s, es[0]), es[1..]))
  }

  predicate PingOk(s: State) {
    !s.ping.assertionFailed && s.ping.pending <= 1 && s.ping.state <= 2 && (s.ping.state == 2 ==> s.ping.pending == 0)
  }

  lemma PingStep(s: State, e: Event)
    requires PingOk(s) && Enabled(s, e) && (StartsPing(s, e) ==> s.ping.pending == 0)
    ensures PingOk(Step(s, e))
  {
  }

  lemma {:induction false} PromptPingsKeepAssertion(s: State, es: seq<Event>)
    requires PingOk(s) && Run(s, es) && PromptPings(s, es)
    ensures PingOk(After(s, es))
    decreases es
  {
    if es != [] {
      PingStep(s, es[0]);
      PromptPingsKeepAssertion(Step(s, es[0]), es[1..]);
    }
  }

  /** Two pings at once: the second completion finds the state that the first left. */
  lemma OverlapStep(s: State, e: Event)
    requires PingOk(s) && Enabled(s, e) && StartsPing(s, e) && s.ping.pending > 0
    ensures var done := PingDone(Success); Run(s, [e, done, done]) && After(s, [e, done, done]).ping.assertionFailed
  {
    var done := PingDone(Success);
    var s1 := Step(s, e);
    assert s1.ping.pending == 2 && s1.ping.state == 1;
    var s2 := Step(s1, done);
    assert s2.ping.pending == 1 && s2.ping.state == 2;
    var s3 := Step(s2, done);
    RunOne(s2, done, []);
    RunOne(s1, done, [done]);
    RunOne(s, e, [done, done]);
  }

  lemma RunOne(s: State, e: Event, es: seq<Event>)
    requires Enabled(s, e) && Run(Step(s, e), es)
    ensures Run(s, [e] + es) && After(s, [e] + es) == After(Step(s, e), es)
    ensures PromptPings(s, [e] + es) <==> (StartsPing(s, e) ==> s.ping.pending == 0) && PromptPings(Step(s, e), es)
  {
    assert ([e] + es)[1..] == es;
  }

  /** Every run on which a ping starts before the last one has completed breaks the assertion
      when it is cut off there and both pings complete. */
  lemma {:induction false} OverlapBreaksAssertion(s: State, es: seq<Event>) returns (n: nat)
    requires PingOk(s) && Run(s, es) && !PromptPings(s, es)
    ensures n <= |es|
    ensures var bad := es[..n] + [PingDone(Success), PingDone(Success)];
            Run(s, bad) && After(s, bad).ping.assertionFailed
    decreases es
  {
    var e := es[0];
    var both := [PingDone(Success), PingDone(Success)];
    if StartsPing(s, e) && s.ping.pending > 0 {
      OverlapStep(s, e);
      n := 1;
      assert es[..1] + both == [e, PingDone(Success), PingDone(Success)];
    } else {
      PingStep(s, e);
      var k := OverlapBreaksAssertion(Step(s, e), es[1..]);
      RunOne(s, e, es[1..][..k] + both);
      n := k + 1;
      assert es[..n] + both == [e] + (es[1..][..k] + both);
    }
  }

  /** At least `n` pings complete before anything is heard. */
  predicate CompleteInSilence(es: seq<Event>, n: nat)
    decreases es
  {
    n == 0
    || (es != [] && !Hears(es[0]) && CompleteInSilence(es[1..], if es[0] == PingDone(Success) then n - 1 else n))
  }

  /** After some ping is started, two pings complete before anything is heard. */
  predicate TwiceInSilence(s: State, es: seq<Event>)
    requires Run(s, es)
    decreases es
  {
    es != [] && ((StartsPing(s, es[0]) && CompleteInSilence(es[1..], 2)) || TwiceInSilence(Step(s, es[0]), es[1..]))
  }

  lemma {:induction false} FailureStays(s: State, es: seq<Event>)
    requires Run(s, es) && s.ping.assertionFailed
    ensures After(s, es).ping.assertionFailed
    decreases es
  {
    if es != [] {
      FailureStays(Step(s, es[0]), es[1..]);
    }
  }

  /** From any ping state: what is still missing for the assertion to fail. */
  predicate WillFail(s: State, es: seq<Event>)
    requires Run(s, es)
  {
    || (s.ping.state == 1 && CompleteInSilence(es, 2))
    || (s.ping.state == 2 && CompleteInSilence(es, 1))
    || TwiceInSilence(s, es)
  }

  lemma {:induction false} FailsExactlyFrom(s: State, es: seq<Event>)
    requires Run(s, es) && s.ping.state <= 2 && !s.ping.assertionFailed
    ensures After(s, es).ping.assertionFailed <==> WillFail(s, es)
    decreases es
  {
    if es != [] {
      var s', rest := Step(s, es[0]), es[1..];
      if s'.ping.assertionFailed {
        FailureStays(s', rest);
        assert CompleteInSilence(rest, 0);
      } else {
        FailsExactlyFrom(s', rest);
      }
    }
  }

  /** The assertion in the ping handler fails on a run exactly when, after some ping was started,
      two pings complete before anything is heard from the peer. */
  lemma AssertionFailsExactly(start: int, es: seq<Event>)
    requires Run(Accepted(FRESH, start), es)
    ensures After(Accepted(FRESH, start), es).ping.assertionFailed <==> TwiceInSilence(Accepted(FRESH, start), es)
  {
    FailsExactlyFrom(Accepted(FRESH, start), es);
  }

  /** And from the start of a session they can: a ping that is slow to complete is overtaken. */
  lemma PingsCanOverlap(start: int)
    ensures exists es :: Run(Accepted(FRESH, start), es) && After(Accepted(FRESH, start), es).ping.assertionFailed
  {
    var s := Accepted(FRESH, start);
    var e1, e2, e3, e4 :=
      AcceptDone(Success), TimerDone(Success, start + 15), ControlFrame(start + 16), TimerDone(Success, start + 31);
    var s1 := Step(s, e1);
    var s2 := Step(s1, e2);
    var s3 := Step(s2, e3);
    assert s3.ping.pending == 1 && s3.open && s3.ping.state == 0 && StartsPing(s3, e4);
    RunOne(s3, e4, []);
    RunOne(s2, e3, [e4]);
    RunOne(s1, e2, [e3, e4]);
    RunOne(s, e1, [e2, e3, e4]);
    assert Run(s, [e1] + [e2, e3, e4]) && !PromptPings(s, [e1] + [e2, e3, e4]);
    var n := OverlapBreaksAssertion(s, [e1] + [e2, e3, e4]);
  }
}
