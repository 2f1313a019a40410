/**
 * The REQ socket with its fields assigned in place, handler by handler.
 *
 * Assertions of the C code are `assert` statements here, so a method verifies only where they
 * hold.  Every entry point is proved to take the step of module Req that describes it and to keep
 * the invariant of ReqRuns.
 */
module ReqSocket {
  import opened Wire
  import opened Req
  import opened ReqRuns
  import opened Wrappers

  /** nn_timer: the machine, its entries in the worker's queue and its place in the timer set. */
  class ResendTimer {
    var fsm: Fsm
    var state: TimerState
    var timeout: int
    var tasks: seq<Task>
    var armed: bool

    ghost function Value(): Timer
      reads this
    {
      Timer(fsm, state, timeout, tasks, armed)
    }

    constructor ()
      ensures Value() == Timer(FsmIdle, TimerIdle, -1, [], false)
    {
      fsm, state, timeout, tasks, armed := FsmIdle, TimerIdle, -1, [], false;
    }

    method Handler(input: TimerInput) returns (raised: Option<TimerEvent>)
      requires TimerHandler(Value(), input).TimerOk?
      modifies this
      ensures TimerOk(Value(), raised) == TimerHandler(old(Value()), input)
    {
      raised := None;
      match state
      case TimerIdle =>
        assert input.StartAction?;
        state := TimerActive;
        assert StartTask !in tasks;
        tasks := tasks + [StartTask];
      case TimerActive =>
        if input == TaskRuns(StartTask) {
          assert timeout >= 0;
          assert !armed;
          armed := true;
          timeout := -1;
        } else {
          assert input.Expires? && timeout == -1;
          raised := Some(Timeout);
        }
    }

    method Shutdown(input: TimerInput) returns (raised: Option<TimerEvent>)
      requires TimerShutdown(Value(), input).TimerOk?
      modifies this
      ensures TimerOk(Value(), raised) == TimerShutdown(old(Value()), input)
    {
      raised := None;
      if input.StopAction? {
        state := TimerStopping;
        assert StopTask !in tasks;
        tasks := tasks + [StopTask];
        return;
      }
      assert state.TimerStopping?;
      if input != TaskRuns(StopTask) { return; }
      armed := false;
      state := TimerIdle;
      assert fsm.FsmStopping?;
      raised := Some(Stopped);
      fsm := FsmIdle;
    }

    method Feed(input: TimerInput) returns (raised: Option<TimerEvent>)
      requires TimerFeed(Value(), input).TimerOk?
      modifies this
      ensures TimerOk(Value(), raised) == TimerFeed(old(Value()), input)
    {
      if !fsm.FsmStopping? {
        raised := Handler(input);
      } else {
        raised := Shutdown(input);
      }
    }

    method Start(interval: int, ghost stoppedQueued: bool)
      requires TimerStart(Value(), interval, stoppedQueued).TimerOk?
      modifies this
      ensures TimerOk(Value(), None) == TimerStart(old(Value()), interval, stoppedQueued)
    {
      assert interval >= 0;
      timeout := interval;
      assert fsm.FsmIdle? && !stoppedQueued;
      var raised := Handler(StartAction);
      fsm := FsmActive;
    }

    method Stop()
      requires TimerStop(Value()).TimerOk?
      modifies this
      ensures TimerOk(Value(), None) == TimerStop(old(Value()))
    {
      if !fsm.FsmActive? { return; }
      fsm := FsmStopping;
      var raised := Shutdown(StopAction);
    }
  }

  /** A submission is one feed; nothing is left to drain. */
  lemma SendSteps(s: Socket, body: Body, c: Choice)
    requires Inv(s) && Enabled(s, Send(body, c))
    requires Transmits(s, Send(body, c)) ==> s.resendIvl >= 0
    ensures var r := Feed(Submitted(s, body), FromAction(SendAction), c);
            r.Ok? && Step(s, Send(body, c)) == r && Leave(r.socket, c) == r && Inv(r.socket)
  {
    SendSafe(s, body, c);
    assert CSend(s, body, c) == Feed(Submitted(s, body), FromAction(SendAction), c);
    FeedRaisesNone(Submitted(s, body), c);
  }

  lemma FeedRaisesNone(s: Socket, c: Choice)
    requires s.events == [] && s.fsm.FsmActive?
    ensures var r := Feed(s, FromAction(SendAction), c); r.Ok? ==> r.socket.events == []
  {
  }

  class RequestSocket {
    var state: State
    var fsm: Fsm
    var id: word
    var request: Request
    var slot: Slot
    var sentTo: Option<Pipe>
    var resendIvl: int
    const timer: ResendTimer
    var pipes: set<Pipe>
    var writable: seq<Pipe>
    var events: seq<TimerEvent>
    ghost var log: Log

    ghost function Value(): Socket
      reads this, timer
    {
      Socket(state, fsm, id, request, slot, sentTo, resendIvl, timer.Value(), pipes, writable, events, log)
    }

    constructor (first: word, ivl: nat)
      ensures Value() == Init(first, ivl) && Inv(Value())
    {
      timer := new ResendTimer();
      state, fsm, id, request := Passive, FsmActive, first, Request(0, []);
      slot, sentTo, resendIvl := Empty, None, ivl;
      pipes, writable, events := {}, [], [];
      log := Log(first, [], [], []);
    }

    /** nn_req_action_send */
    method ActionSend(allowDelay: bool, c: Choice)
      requires SendRequest(Value(), allowDelay, c).Ok?
      modifies this, timer
      ensures Value() == SendRequest(old(Value()), allowDelay, c).socket
    {
      if |writable| == 0 {
        assert allowDelay;
        state := Delayed;
        return;
      }
      var i := c.pick % |writable|;
      var to := writable[i];
      if c.release { writable := writable[..i] + writable[i + 1..]; }
      log := log.(sent := log.sent + [Sent(to, request, |log.submitted|)]);
      timer.Start(resendIvl, Stopped in events);
      assert events + [] == events;
      sentTo := Some(to);
      state := Active;
    }

    method StopTimerThen(next: State)
      requires StopTimer(Value(), next).Ok?
      modifies this, timer
      ensures Value() == StopTimer(old(Value()), next).socket
    {
      timer.Stop();
      assert events + [] == events;
      sentTo := None;
      state := next;
    }

    /** nn_req_handler */
    method Handle(src: Source, c: Choice)
      requires Handler(Value(), src, c).Ok?
      modifies this, timer
      ensures Value() == Handler(old(Value()), src, c).socket
    {
      match state
      case Idle =>
        assert src == FromAction(Start);
        state := Passive;
      case Passive =>
        assert src == FromAction(SendAction);
        ActionSend(true, c);
      case Delayed =>
        if src == FromAction(Action.Out) {
          ActionSend(false, c);
        } else {
          assert src == FromAction(SendAction);
        }
      case Active =>
        if src == FromAction(Action.In) {
          StopTimerThen(StoppingTimer);
        } else if src == FromAction(SendAction) {
          StopTimerThen(Cancelling);
        } else {
          assert src == FromAction(PipeRemoved) || src == FromTimer(Timeout);
          StopTimerThen(TimedOut);
        }
      case TimedOut =>
        if src == FromTimer(Stopped) {
          ActionSend(true, c);
        } else {
          assert src == FromAction(SendAction);
          state := Cancelling;
        }
      case Cancelling =>
        if src == FromTimer(Stopped) {
          ActionSend(true, c);
        } else {
          assert src == FromAction(SendAction);
        }
      case StoppingTimer =>
        if src == FromTimer(Stopped) {
          state := Done;
        } else {
          assert src == FromAction(SendAction);
          state := Cancelling;
        }
      case Done =>
        if src == FromAction(Action.Received) {
          state := Passive;
        } else {
          assert src == FromAction(SendAction);
          ActionSend(true, c);
        }
    }

    /** nn_req_shutdown after the stop action */
    method HandleShutdown()
      requires Shutdown(Value()).Ok?
      modifies this
      ensures Value() == Shutdown(old(Value())).socket
    {
      assert state.Stopping?;
      if !timer.fsm.FsmIdle? || Stopped in events { return; }
      state := Idle;
      assert fsm.FsmStopping?;
      fsm := FsmIdle;
    }

    method FeedSource(src: Source, c: Choice)
      requires Feed(Value(), src, c).Ok?
      modifies this, timer
      ensures Value() == Feed(old(Value()), src, c).socket
    {
      if !fsm.FsmStopping? {
        Handle(src, c);
      } else {
        HandleShutdown();
      }
    }

    /** nn_ctx_leave */
    method LeaveContext(c: Choice)
      requires Leave(Value(), c).Ok?
      modifies this, timer
      ensures Value() == Leave(old(Value()), c).socket
    {
      while |events| != 0
        invariant Leave(Value(), c) == Leave(old(Value()), c)
        decreases |events|
      {
        var e := events[0];
        events := events[1..];
        FeedSource(FromTimer(e), c);
      }
    }

    // -------------------------------------------------------------------------- entry points

    /** nn_req_csend */
    method CSend(body: Body, c: Choice)
      requires Inv(Value()) && Enabled(Value(), Send(body, c))
      requires Transmits(Value(), Send(body, c)) ==> resendIvl >= 0
      modifies this, timer
      ensures Ok(Value()) == Step(old(Value()), Send(body, c)) && Inv(Value())
    {
      SendSteps(Value(), body, c);
      id := (id + 1) % 0x1_0000_0000;
      request := Request(HeaderOf(id), body);
      log := log.(submitted := log.submitted + [body]);
      assert Value() == Submitted(old(Value()), body);
      FeedSource(FromAction(SendAction), c);
      LeaveContext(c);
    }

    /** nn_req_crecv: EFSM, EAGAIN, or what the reply slot holds. */
    method CRecv() returns (rc: RecvCode, reply: Slot)
      requires Inv(Value()) && Enabled(Value(), Recv)
      modifies this, timer
      ensures Ok(Value()) == Step(old(Value()), Recv) && Inv(Value())
      ensures rc == if old(state).Passive? then NoRequest else if old(state).Done? then Delivered else NoReplyYet
      ensures reply == if old(state).Done? then old(slot) else Empty
    {
      StepSafe(Value(), Recv);
      if state.Idle? || state.Passive? || state.Stopping? { return NoRequest, Empty; }
      if !state.Done? { return NoReplyYet, Empty; }
      reply := slot;
      slot := Empty;
      FeedSource(FromAction(Action.Received), Choice(0, false));
      rc := Delivered;
    }

    /** The checks of nn_req_in on the message in the reply slot. */
    method Check(m: Message) returns (answers: bool)
      ensures answers <==> Answers(Value(), m)
    {
      if state.Idle? || state.Passive? || state.Stopping? { return false; }
      if |m.header| != 4 { return false; }
      var reqid := GetL(m.header);
      if !TopBit(reqid) { return false; }
      return reqid == WithTopBit(id);
    }

    method AcceptReply(m: Message, ghost rest: seq<Incoming>)
      requires Inv(Value()) && fsm.FsmActive? && Answers(Value(), m)
      requires rest != [] && Split(rest[0]) == Some(m)
      modifies this, timer
      ensures Ok(Value()) == Consume(old(Value()), rest)
    {
      PipeInSafe(Value(), rest);
      slot := Held(m.body);
      if state.Active? {
        log := log.(accepted := log.accepted + [Accepted(GetL(m.header), m.body, |log.submitted|)]);
        FeedSource(FromAction(Action.In), Choice(0, false));
      }
    }

    /** nn_req_in */
    method In(replies: seq<Incoming>)
      requires Inv(Value()) && Enabled(Value(), PipeIn(replies))
      modifies this, timer
      ensures Ok(Value()) == Step(old(Value()), PipeIn(replies)) && Inv(Value())
    {
      PipeInSafe(Value(), replies);
      var rest := replies;
      while |rest| != 0
        invariant Consume(Value(), rest) == Consume(old(Value()), replies)
        invariant Inv(Value()) && fsm.FsmActive?
        decreases |rest|
      {
        var m := Split(rest[0]);
        if m.None? {
          slot := Released;
          return;
        }
        var answers := Check(m.value);
        if answers {
          AcceptReply(m.value, rest);
          return;
        }
        slot := Released;
        rest := rest[1..];
      }
    }

    /** nn_req_out */
    method Out(p: Pipe, c: Choice)
      requires Inv(Value()) && Enabled(Value(), PipeOut(p, c))
      requires Transmits(Value(), PipeOut(p, c)) ==> resendIvl >= 0
      modifies this, timer
      ensures Ok(Value()) == Step(old(Value()), PipeOut(p, c)) && Inv(Value())
    {
      StepSafe(Value(), PipeOut(p, c));
      writable := writable + [p];
      if state.Delayed? { FeedSource(FromAction(Action.Out), c); }
    }

    /** nn_req_rm */
    method Rm(p: Pipe)
      requires Inv(Value()) && Enabled(Value(), PipeRm(p))
      modifies this, timer
      ensures Ok(Value()) == Step(old(Value()), PipeRm(p)) && Inv(Value())
    {
      StepSafe(Value(), PipeRm(p));
      pipes := pipes - {p};
      writable := Remove(writable, p);
      if sentTo == Some(p) { FeedSource(FromAction(PipeRemoved), Choice(0, false)); }
    }

    /** The worker thread runs the timer's next task. */
    method RunTask(c: Choice)
      requires Inv(Value()) && Enabled(Value(), WorkerTask(c))
      requires Transmits(Value(), WorkerTask(c)) ==> resendIvl >= 0
      modifies this, timer
      ensures Ok(Value()) == Step(old(Value()), WorkerTask(c)) && Inv(Value())
    {
      StepSafe(Value(), WorkerTask(c));
      var task := timer.tasks[0];
      timer.tasks := timer.tasks[1..];
      var raised := timer.Feed(TaskRuns(task));
      if raised.Some? { events := events + [raised.value]; }
      assert raised.None? ==> events + [] == events;
      LeaveContext(c);
    }

    /** The worker thread finds the timer expired. */
    method Expire(c: Choice)
      requires Inv(Value()) && Enabled(Value(), WorkerExpiry(c))
      modifies this, timer
      ensures Ok(Value()) == Step(old(Value()), WorkerExpiry(c)) && Inv(Value())
    {
      StepSafe(Value(), WorkerExpiry(c));
      timer.armed := false;
      var raised := timer.Feed(Expires);
      if raised.Some? { events := events + [raised.value]; }
      assert raised.None? ==> events + [] == events;
      LeaveContext(c);
    }

    /** nn_req_stop */
    method Stop()
      requires Inv(Value()) && Enabled(Value(), Close)
      modifies this, timer
      ensures Ok(Value()) == Step(old(Value()), Close) && Inv(Value())
    {
      StepSafe(Value(), Close);
      fsm := FsmStopping;
      timer.Stop();
      assert events + [] == events;
      state := Stopping;
      HandleShutdown();
    }
  }

  datatype RecvCode = NoRequest | NoReplyYet | Delivered
}
