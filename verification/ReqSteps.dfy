/**
 * What each step of the REQ socket leads to, state by state, and what becomes of a submission.
 */
module ReqSteps {
  import opened Bytes
  import opened Wire
  import opened Req
  import opened ReqRuns
  import opened ReqReplies
  import opened Wrappers

  // ----------------------------------------------------------------------------- a submission

  /** The request submitted last, once more, to a ready pipe; the timer starts with the interval set by then. */
  ghost predicate SentOnce(s: Socket, ready: seq<Pipe>, r: Socket) {
    && r.state.Active? && r.sentTo.Some? && r.sentTo.value in ready
    && |r.log.submitted| > 0
    && r.log.sent == s.log.sent
                     + [Sent(r.sentTo.value, Submission(r.log, |r.log.submitted|), |r.log.submitted|)]
    && r.timer.timeout == s.resendIvl && r.timer.tasks == [StartTask]
    && (r.writable == ready
        || exists i :: 0 <= i < |ready| && ready[i] == r.sentTo.value && r.writable == Without(ready, i))
  }

  /** The request waits for a pipe, or has been sent, exactly once. */
  ghost predicate GoesOut(s: Socket, ready: seq<Pipe>, r: Socket) {
    if ready == [] then r.state.Delayed? && r.log.sent == s.log.sent && r.writable == [] else SentOnce(s, ready, r)
  }

  /** What a step that transmits nothing and accepts nothing leaves alone. */
  ghost predicate SameTraffic(s: Socket, r: Socket) {
    r.log.sent == s.log.sent && r.log.accepted == s.log.accepted && r.writable == s.writable
  }

  /** What only its own call changes: the request, the pipes and the interval. */
  ghost predicate SameSetting(s: Socket, r: Socket) {
    && r.log.submitted == s.log.submitted && r.log.first == s.log.first && r.request == s.request && r.id == s.id
    && r.pipes == s.pipes && r.resendIvl == s.resendIvl
  }

  lemma SendRequestGoesOut(s: Socket, c: Choice)
    requires ReadyToSend(s) && s.resendIvl >= 0
    ensures var r := SendRequest(s, true, c);
            && r.Ok? && GoesOut(s, s.writable, r.socket) && SameSetting(s, r.socket)
            && r.socket.log.accepted == s.log.accepted && r.socket.slot == s.slot
  {
    if s.writable != [] {
      SendRequestResult(s, true, c);
      var i := c.pick % |s.writable|;
      assert s.writable[i] in s.writable;
    }
  }

  /** A submission from rest. */
  lemma SendFromRest(s: Socket, body: Body, c: Choice)
    requires Inv(s) && (s.state.Passive? || s.state.Done?) && s.resendIvl >= 0
    ensures var r := Step(s, Send(body, c));
            r.Ok? && GoesOut(s, s.writable, r.socket) && SameSetting(Submitted(s, body), r.socket)
            && r.socket.log.accepted == s.log.accepted && r.socket.slot == s.slot
  {
    var s' := Submitted(s, body);
    SubmittedHistory(s, body);
    SendSafe(s, body, c);
    SendRequestGoesOut(s', c);
    assert CSend(s, body, c) == Handler(s', FromAction(SendAction), c) == SendRequest(s', true, c);
  }

  /** A submission while another request is under way. */
  lemma SendUnderWay(s: Socket, body: Body, c: Choice)
    requires Inv(s) && s.fsm.FsmActive? && !s.state.Passive? && !s.state.Done?
    ensures var r := Step(s, Send(body, c));
            r.Ok? && SameTraffic(s, r.socket) && SameSetting(Submitted(s, body), r.socket) && r.socket.slot == s.slot
            && if s.state.Delayed? then r.socket.state.Delayed? else r.socket.state.Cancelling?
  {
    var s' := Submitted(s, body);
    SendSafe(s, body, c);
    assert CSend(s, body, c) == Handler(s', FromAction(SendAction), c);
  }

  /**
   * Where a submission leads: from PASSIVE and DONE it is sent at once or waits in DELAYED, in DELAYED it goes
   * on waiting, and otherwise the request under way is cancelled. It is the stored request from then on.
   */
  lemma SendLeadsTo(s: Socket, body: Body, c: Choice)
    requires Inv(s) && Enabled(s, Send(body, c)) && s.resendIvl >= 0
    ensures Step(s, Send(body, c)).Ok?
    ensures var r := Step(s, Send(body, c)).socket;
            && r.log.submitted == s.log.submitted + [body] && r.request == Submission(r.log, |r.log.submitted|)
            && r.request.body == body && r.log.accepted == s.log.accepted && r.slot == s.slot
            && r.pipes == s.pipes && r.resendIvl == s.resendIvl
            && match s.state
               case Passive | Done => GoesOut(s, s.writable, r)
               case Delayed => r.state.Delayed? && SameTraffic(s, r)
               case _ => r.state.Cancelling? && SameTraffic(s, r)
  {
    SubmittedHistory(s, body);
    if s.state.Passive? || s.state.Done? { SendFromRest(s, body, c); } else { SendUnderWay(s, body, c); }
  }

  /** A pipe that becomes writable takes the request that waits for one, once; otherwise it is only noted. */
  lemma PipeOutLeadsTo(s: Socket, p: Pipe, c: Choice)
    requires Inv(s) && Enabled(s, PipeOut(p, c)) && s.resendIvl >= 0
    ensures var r := Step(s, PipeOut(p, c));
            r.Ok? && if s.state.Delayed? then SentOnce(s, [p], r.socket) && SameSetting(s, r.socket)
                     else r.socket == s.(writable := s.writable + [p])
  {
    if s.state.Delayed? {
      var s' := s.(writable := s.writable + [p]);
      assert s'.writable == [p];
      SendRequestGoesOut(s', c);
    }
  }

  // --------------------------------------------------------------------------------- the timer

  lemma ExpiryRaises(s: Socket)
    requires Inv(s) && s.state.Active? && s.timer.armed
    ensures WithTimer(s, TimerFeed(s.timer.(armed := false), Expires)) ==
            Ok(s.(timer := s.timer.(armed := false), events := [Timeout]))
  {
    assert s.events == [];
    assert s.events + [Timeout] == [Timeout];
  }

  /** The socket once its timer has been told to stop because of a timeout. */
  function TimingOut(s: Socket): Socket {
    s.(state := TimedOut, sentTo := None,
       timer := s.timer.(fsm := FsmStopping, state := TimerStopping, armed := false, tasks := [StopTask]))
  }

  lemma TimeoutStops(s: Socket, c: Choice)
    requires Inv(s) && s.state.Active? && s.timer.armed
    ensures Feed(s.(timer := s.timer.(armed := false)), FromTimer(Timeout), c) == Ok(TimingOut(s))
  {
    assert s.timer.tasks == [] && s.timer.tasks + [StopTask] == [StopTask];
    assert s.events == [] && s.events + [] == s.events;
  }

  lemma ExpiryActive(s: Socket, c: Choice)
    requires Inv(s) && s.state.Active? && s.timer.armed
    ensures Step(s, WorkerExpiry(c)) == Ok(TimingOut(s))
  {
    ExpiryRaises(s);
    TimeoutStops(s, c);
    var r := s.(timer := s.timer.(armed := false), events := [Timeout]);
    LeaveOne(r, Timeout, c);
    assert r.(events := []) == s.(timer := s.timer.(armed := false));
  }

  /** A timeout makes the request under way be resent; an expiry that was overtaken by a stop does nothing. */
  lemma ExpiryLeadsTo(s: Socket, c: Choice)
    requires Inv(s) && Enabled(s, WorkerExpiry(c))
    ensures var r := Step(s, WorkerExpiry(c));
            && r.Ok? && SameTraffic(s, r.socket) && SameSetting(s, r.socket) && r.socket.slot == s.slot
            && !r.socket.timer.armed
            && if s.state.Active? then r.socket.state.TimedOut? && r.socket.timer.tasks == [StopTask]
               else r.socket.state == s.state && r.socket.timer.tasks == s.timer.tasks
  {
    if s.state.Active? {
      ExpiryActive(s, c);
    } else {
      assert Step(s, WorkerExpiry(c)) == Ok(s.(timer := s.timer.(armed := false)));
    }
  }

  /** The start task arms the timer of a request that is still under way. */
  lemma StartTaskLeadsTo(s: Socket, c: Choice)
    requires Inv(s) && s.timer.tasks != [] && s.timer.tasks[0].StartTask?
    ensures var r := Step(s, WorkerTask(c));
            && r.Ok? && SameTraffic(s, r.socket) && SameSetting(s, r.socket) && r.socket.slot == s.slot
            && r.socket.state == s.state && r.socket.timer.armed == s.state.Active?
            && r.socket.timer.tasks == s.timer.tasks[1..]
  {
    if !s.state.Active? { assert s.timer.tasks[1..] == [StopTask]; }
  }

  /** The stop task ends the wait for the timer: the request is sent again, done, or the socket has stopped. */
  lemma StopTaskLeadsTo(s: Socket, c: Choice)
    requires Inv(s) && s.timer.tasks != [] && s.timer.tasks[0].StopTask? && s.resendIvl >= 0
    ensures var r := Step(s, WorkerTask(c));
            && r.Ok? && SameSetting(s, r.socket) && r.socket.slot == s.slot
            && r.socket.log.accepted == s.log.accepted
            && match s.state
               case TimedOut | Cancelling => GoesOut(s, s.writable, r.socket)
               case StoppingTimer => r.socket.state.Done? && SameTraffic(s, r.socket)
               case _ => s.state.Stopping? && r.socket.state.Idle? && SameTraffic(s, r.socket)
  {
    assert s.timer.tasks == [StopTask];
    StopTaskFeeds(s, c);
    if s.state.TimedOut? || s.state.Cancelling? { SendRequestGoesOut(TimerStopped(s), c); }
  }

  // ------------------------------------------------------------------------ the other events

  /** The list of ready pipes without one of them. */
  lemma {:induction false} RemoveIs(pipes: seq<Pipe>, p: Pipe)
    requires Distinct(pipes)
    ensures p !in pipes ==> Remove(pipes, p) == pipes
    ensures forall i :: 0 <= i < |pipes| && pipes[i] == p ==> Remove(pipes, p) == Without(pipes, i)
    decreases |pipes|
  {
    if pipes != [] {
      var rest := pipes[1..];
      RemoveIs(rest, p);
      assert pipes == [pipes[0]] + rest;
      forall i | 0 <= i < |pipes| && pipes[i] == p ensures Remove(pipes, p) == Without(pipes, i) {
        if i == 0 {
          assert p !in rest;
          assert Without(pipes, 0) == rest;
        } else {
          assert rest[i - 1] == p;
          assert Without(pipes, i) == [pipes[0]] + Without(rest, i - 1);
        }
      }
    }
  }

  /** A pipe goes, the others stay ready in their order; a request sent to it is treated as timed out. */
  lemma PipeRmLeadsTo(s: Socket, p: Pipe)
    requires Inv(s) && Enabled(s, PipeRm(p))
    ensures var r := Step(s, PipeRm(p));
            && r.Ok? && r.socket.pipes == s.pipes - {p}
            && (p !in s.writable ==> r.socket.writable == s.writable)
            && (forall i :: 0 <= i < |s.writable| && s.writable[i] == p ==> r.socket.writable == Without(s.writable, i))
            && r.socket.log == s.log && r.socket.request == s.request && r.socket.slot == s.slot
            && if s.sentTo == Some(p) then r.socket.state.TimedOut? && r.socket.sentTo.None?
               else r.socket.state == s.state && r.socket.sentTo == s.sentTo && r.socket.timer == s.timer
  {
    RemoveIs(s.writable, p);
    StepSafe(s, PipeRm(p));
  }

  /** The user's receive call takes the reply in DONE, and does nothing in any other state. */
  lemma RecvLeadsTo(s: Socket)
    requires Inv(s) && Enabled(s, Recv)
    ensures Step(s, Recv) == Ok(if s.state.Done? then s.(slot := Empty, state := Passive) else s)
  {
  }

  /** A request under way is completed exactly when an answer comes before the first malformed message. */
  lemma {:induction false} AnswerCompletes(s: Socket, replies: seq<Incoming>)
    requires Inv(s) && s.state.Active?
    ensures var r := Step(s, PipeIn(replies));
            && r.Ok? && r.socket.log.sent == s.log.sent && r.socket.log.submitted == s.log.submitted
            && if NoAnswerFirst(replies, Current(s)) then r.socket.state.Active? && r.socket.log == s.log
               else r.socket.state.StoppingTimer? && |r.socket.log.accepted| == |s.log.accepted| + 1
    decreases |replies|
  {
    StepSafe(s, PipeIn(replies));
    if replies != [] {
      NoAnswerStep(replies, Current(s));
      if Split(replies[0]).Some? && !Carries(replies[0], Current(s)) {
        AnswerCompletes(s.(slot := Released), replies[1..]);
      }
    }
  }

  lemma NoAnswerStep(replies: seq<Incoming>, w: word)
    requires replies != []
    ensures NoAnswerFirst(replies, w) <==>
              Split(replies[0]).None? || (!Carries(replies[0], w) && NoAnswerFirst(replies[1..], w))
  {
    var rest := replies[1..];
    if Split(replies[0]).Some? && NoAnswerFirst(replies, w) {
      assert !Carries(replies[0], w);
      forall i | 0 <= i < |rest| && Carries(rest[i], w) ensures exists j :: 0 <= j < i && Split(rest[j]).None? {
        assert Carries(replies[i + 1], w);
        var j :| 0 <= j < i + 1 && Split(replies[j]).None?;
        assert Split(rest[j - 1]).None?;
      }
    }
    if Split(replies[0]).Some? && !Carries(replies[0], w) && NoAnswerFirst(rest, w) {
      forall i | 0 <= i < |replies| && Carries(replies[i], w)
        ensures exists j :: 0 <= j < i && Split(replies[j]).None?
      {
        var j :| 0 <= j < i - 1 && Split(rest[j]).None?;
        assert Split(replies[j + 1]).None?;
      }
    }
  }

  /** Where the transport does not split, the first word is the header, and less than a word is malformed. */
  lemma RawSplits(header: seq<byte>, body: Body)
    requires |header| == 4
    ensures Split(Raw(header + body)) == Some(Message(header, body))
    ensures forall bytes: seq<byte> :: Split(Raw(bytes)).None? <==> |bytes| < 4
  {
    assert (header + body)[..4] == header && (header + body)[4..] == body;
  }

  /** A message is taken the same way whichever transport it comes by. */
  lemma {:induction false} SameReplies(s: Socket, a: seq<Incoming>, b: seq<Incoming>)
    requires |a| == |b| && forall i :: 0 <= i < |a| ==> Split(a[i]) == Split(b[i])
    ensures Consume(s, a) == Consume(s, b)
    decreases |a|
  {
    if a != [] { SameReplies(s.(slot := Released), a[1..], b[1..]); }
  }

  // ---------------------------------------------------------------- over several steps

  /** One more message has gone out: the request submitted last. */
  ghost predicate OneMore(s: Socket, r: Socket) {
    && r.state.Active? && r.sentTo.Some? && |r.log.submitted| > 0
    && r.log.sent == s.log.sent
                     + [Sent(r.sentTo.value, Submission(r.log, |r.log.submitted|), |r.log.submitted|)]
  }

  lemma CatchingUpActive(s: Socket, c: Choice)
    requires Inv(s) && s.state.Active? && s.timer.tasks == [StartTask]
    ensures var r := WorkerCatchesUp(s, c, 1);
            r.Ok? && Inv(r.socket) && r.socket.state.Active? && r.socket.log == s.log && r.socket.sentTo == s.sentTo
            && r.socket.timer.armed
  {
    StartTaskSafe(s, c);
    StartTaskLeadsTo(s, c);
    assert WorkerCatchesUp(s, c, 1) == Step(s, WorkerTask(c));
  }

  /** A submission that cancels another request has gone out, or waits, once the queued tasks have run. */
  lemma CancelledGoesOut(s: Socket, c: Choice)
    requires Inv(s) && s.state.Cancelling? && s.resendIvl >= 0
    ensures var r := WorkerCatchesUp(s, c, |s.timer.tasks|);
            && r.Ok? && Inv(r.socket) && r.socket.log.submitted == s.log.submitted && r.socket.pipes == s.pipes
            && r.socket.resendIvl == s.resendIvl
            && if s.writable == [] then r.socket.state.Delayed? && r.socket.log == s.log && r.socket.writable == []
               else OneMore(s, r.socket)
  {
    if s.timer.tasks == [StopTask] {
      StopTaskSafe(s, c);
      StopTaskLeadsTo(s, c);
      assert WorkerCatchesUp(s, c, 1) == Step(s, WorkerTask(c));
    } else {
      var s' := StartTaskSkipped(s, c);
      StopTaskSafe(s', c);
      StopTaskLeadsTo(s', c);
      assert WorkerCatchesUp(s', c, 1) == Step(s', WorkerTask(c));
    }
  }

  /** The socket after a submission and the tasks that are queued then. */
  function AfterSubmission(s: Socket, body: Body, c: Choice): Result
    requires Enabled(s, Send(body, c))
  {
    var r := Step(s, Send(body, c));
    if r.Abort? then Abort else WorkerCatchesUp(r.socket, c, |r.socket.timer.tasks|)
  }

  /**
   * Every submission, whatever the state it is made in, goes out exactly once as soon as the queued tasks have
   * run, or waits and is sent exactly once by the next pipe that becomes writable.
   */
  lemma SubmissionGoesOut(s: Socket, body: Body, c: Choice, p: Pipe)
    requires Inv(s) && Enabled(s, Send(body, c)) && s.resendIvl >= 0 && p in s.pipes
    ensures var r := AfterSubmission(s, body, c);
            && r.Ok? && Inv(r.socket) && r.socket.log.submitted == s.log.submitted + [body]
            && if s.writable == [] then
                 && r.socket.state.Delayed? && r.socket.log.sent == s.log.sent
                 && Enabled(r.socket, PipeOut(p, c))
                 && var out := Step(r.socket, PipeOut(p, c));
                    out.Ok? && OneMore(s, out.socket) && out.socket.sentTo == Some(p)
                    && out.socket.log.submitted == s.log.submitted + [body]
               else OneMore(s, r.socket)
  {
    SendSafe(s, body, c);
    SendLeadsTo(s, body, c);
    var a := Step(s, Send(body, c)).socket;
    if a.state.Cancelling? {
      CancelledGoesOut(a, c);
    } else if a.state.Active? {
      CatchingUpActive(a, c);
    }
    var r := AfterSubmission(s, body, c).socket;
    if s.writable == [] { PipeOutLeadsTo(r, p, c); }
  }

  /** The interval that a later request is timed with is the one set last. */
  lemma IntervalIsUsed(s: Socket, ivl: nat, body: Body, c: Choice)
    requires Inv(s) && s.state.Passive? && s.writable != []
    ensures Step(s, SetResendIvl(ivl)).Ok?
    ensures var set' := Step(s, SetResendIvl(ivl)).socket;
            && set'.resendIvl == ivl && Inv(set') && Enabled(set', Send(body, c))
            && Step(set', Send(body, c)).Ok? && Step(set', Send(body, c)).socket.timer.timeout == ivl
            && Step(set', Send(body, c)).socket.state.Active?
  {
    StepSafe(s, SetResendIvl(ivl));
    SendLeadsTo(Step(s, SetResendIvl(ivl)).socket, body, c);
  }
}
