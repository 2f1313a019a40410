/**
 * What holds in every run of the REQ socket, whatever order user calls, pipe events, worker tasks,
 * expiries and closing come in.
 */
module ReqRuns {
  import opened Wire
  import opened Req
  import opened Wrappers

  // ------------------------------------------------------------------------------ invariants

  /** The timer's phase is determined by the socket's state. */
  ghost predicate TimerPhase(state: State, t: Timer) {
    match state
    case Idle | Passive | Delayed | Done =>
      t.fsm.FsmIdle? && t.state.TimerIdle? && t.tasks == [] && !t.armed
    case Active =>
      && t.fsm.FsmActive? && t.state.TimerActive?
      && (if t.armed then t.tasks == [] && t.timeout == -1 else t.tasks == [StartTask] && t.timeout >= 0)
    case TimedOut | Cancelling | StoppingTimer | Stopping =>
      && t.fsm.FsmStopping? && t.state.TimerStopping?
      && (t.tasks == [StopTask] || (t.tasks == [StartTask, StopTask] && !t.armed))
  }

  /** The control state. */
  ghost predicate Control(s: Socket) {
    && s.events == []
    && TimerPhase(s.state, s.timer)
    && (s.fsm.FsmActive? <==> !s.state.Idle? && !s.state.Stopping?)
    && (s.fsm.FsmStopping? <==> s.state.Stopping?)
    && (s.fsm.FsmActive? ==> (s.sentTo.Some? <==> s.state.Active?))
    && (s.state.Active? ==> s.sentTo.Some? && s.sentTo.value in s.pipes)
    && Distinct(s.writable)
    && (forall i :: 0 <= i < |s.writable| ==> s.writable[i] in s.pipes)
    && (s.state.Delayed? ==> s.writable == [])
  }

  /** The 32-bit identifier of the n-th submission, the first being n = 1. */
  function IdOf(first: word, n: nat): word {
    (first + n) % 0x1_0000_0000
  }

  function HeaderNumber(first: word, n: nat): word {
    HeaderOf(IdOf(first, n))
  }

  function Submission(log: Log, n: nat): Request
    requires 1 <= n <= |log.submitted|
  {
    Request(HeaderNumber(log.first, n), log.submitted[n - 1])
  }

  ghost predicate IsSubmission(log: Log, e: Sent) {
    1 <= e.number <= |log.submitted| && e.request == Submission(log, e.number)
  }

  /** Every message sent is a submission, and none is sent after a later one. */
  ghost predicate SentInOrder(log: Log) {
    && (forall i :: 0 <= i < |log.sent| ==> IsSubmission(log, log.sent[i]))
    && (forall i, j :: 0 <= i < j < |log.sent| ==> log.sent[i].number <= log.sent[j].number)
  }

  ghost predicate WasSent(log: Log, n: nat) {
    exists i :: 0 <= i < |log.sent| && log.sent[i].number == n
  }

  ghost predicate IsAnswer(log: Log, a: Accepted) {
    && 1 <= a.number <= |log.submitted|
    && a.header == HeaderNumber(log.first, a.number)
    && WasSent(log, a.number)
  }

  /** A request is completed at most once, by a reply with its identifier, after it was sent. */
  ghost predicate AcceptedOnce(log: Log) {
    && (forall i :: 0 <= i < |log.accepted| ==> IsAnswer(log, log.accepted[i]))
    && (forall i, j :: 0 <= i < j < |log.accepted| ==> log.accepted[i].number < log.accepted[j].number)
  }

  function LastAccepted(log: Log): nat {
    if log.accepted == [] then 0 else log.accepted[|log.accepted| - 1].number
  }

  ghost predicate History(s: Socket) {
    && s.id == IdOf(s.log.first, |s.log.submitted|)
    && SentInOrder(s.log) && AcceptedOnce(s.log)
    && (InProgress(s) ==>
          |s.log.submitted| > 0 && s.request == Submission(s.log, |s.log.submitted|))
    && (s.state.Active? ==>
          && s.sentTo.Some? && s.log.sent != []
          && s.log.sent[|s.log.sent| - 1] == Sent(s.sentTo.value, s.request, |s.log.submitted|))
    && (s.state.Delayed? || s.state.Active? || s.state.TimedOut? || s.state.Cancelling? ==>
          LastAccepted(s.log) < |s.log.submitted|)
    && (s.state.StoppingTimer? || s.state.Done? ==> LastAccepted(s.log) == |s.log.submitted|)
  }

  ghost predicate Inv(s: Socket) {
    Control(s) && History(s)
  }

  /** The events that put the request on the wire. */
  predicate Transmits(s: Socket, ev: Event) {
    match ev
    case Send(_, _) => (s.state.Passive? || s.state.Done?) && s.writable != []
    case PipeOut(_, _) => s.state.Delayed?
    case WorkerTask(_) =>
      && s.timer.tasks != [] && s.timer.tasks[0].StopTask?
      && (s.state.TimedOut? || s.state.Cancelling?) && s.writable != []
    case _ => false
  }

  // ------------------------------------------------------------------------------- one step

  /** All but the stored request's fate is fine before the request is sent. */
  ghost predicate ReadyToSend(s: Socket) {
    && s.events == []
    && TimerPhase(Passive, s.timer)
    && s.fsm.FsmActive? && s.sentTo.None?
    && Distinct(s.writable)
    && (forall i :: 0 <= i < |s.writable| ==> s.writable[i] in s.pipes)
    && s.id == IdOf(s.log.first, |s.log.submitted|)
    && SentInOrder(s.log) && AcceptedOnce(s.log)
    && |s.log.submitted| > 0 && s.request == Submission(s.log, |s.log.submitted|)
    && LastAccepted(s.log) < |s.log.submitted|
  }

  /** A history that grows keeps what it says about its entries. */
  lemma LogGrows(log: Log, log': Log)
    requires log.sent <= log'.sent && log.submitted <= log'.submitted && log.first == log'.first
    ensures forall e :: IsSubmission(log, e) ==> IsSubmission(log', e)
    ensures forall a :: IsAnswer(log, a) ==> IsAnswer(log', a)
  {
    forall n | WasSent(log, n) ensures WasSent(log', n) {
      var i :| 0 <= i < |log.sent| && log.sent[i].number == n;
      assert log'.sent[i].number == n;
    }
    forall e | IsSubmission(log, e) ensures IsSubmission(log', e) {
      assert log.submitted[e.number - 1] == log'.submitted[e.number - 1];
    }
  }

  lemma AppendSent(log: Log, to: Pipe, log': Log)
    requires SentInOrder(log) && AcceptedOnce(log) && |log.submitted| > 0
    requires log' == log.(sent := log.sent + [Sent(to, Submission(log, |log.submitted|), |log.submitted|)])
    ensures SentInOrder(log') && AcceptedOnce(log')
  {
    LogGrows(log, log');
  }

  /** What sending leaves, when there is a pipe to send to. */
  lemma SendRequestResult(s: Socket, allowDelay: bool, c: Choice)
    requires s.writable != [] && s.events == [] && TimerPhase(Passive, s.timer)
    ensures SendRequest(s, allowDelay, c).Abort? <==> s.resendIvl < 0
    ensures s.resendIvl >= 0 ==>
              var i := c.pick % |s.writable|;
              SendRequest(s, allowDelay, c) ==
                Ok(s.(writable := if c.release then Without(s.writable, i) else s.writable,
                      timer := Timer(FsmActive, TimerActive, s.resendIvl, [StartTask], false),
                      sentTo := Some(s.writable[i]), state := Active,
                      log := s.log.(sent := s.log.sent + [Sent(s.writable[i], s.request, |s.log.submitted|)])))
  {
  }

  /** A released pipe leaves a list of the socket's pipes. */
  lemma ReleaseKeeps(writable: seq<Pipe>, i: nat, pipes: set<Pipe>)
    requires Distinct(writable) && i < |writable|
    requires forall j :: 0 <= j < |writable| ==> writable[j] in pipes
    ensures Distinct(Without(writable, i))
    ensures forall j :: 0 <= j < |Without(writable, i)| ==> Without(writable, i)[j] in pipes
  {
    WithoutAt(writable, i);
  }

  lemma SendRequestSafe(s: Socket, allowDelay: bool, c: Choice)
    requires ReadyToSend(s) && (allowDelay || s.writable != [])
    ensures SendRequest(s, allowDelay, c).Abort? <==> s.writable != [] && s.resendIvl < 0
    ensures SendRequest(s, allowDelay, c).Ok? ==> Inv(SendRequest(s, allowDelay, c).socket)
  {
    if s.writable != [] {
      var i := c.pick % |s.writable|;
      SendRequestResult(s, allowDelay, c);
      ReleaseKeeps(s.writable, i, s.pipes);
      var sent := Sent(s.writable[i], s.request, |s.log.submitted|);
      AppendSent(s.log, s.writable[i], s.log.(sent := s.log.sent + [sent]));
    }
  }

  lemma Submit(log: Log, body: Body, log': Log)
    requires SentInOrder(log) && AcceptedOnce(log)
    requires log' == log.(submitted := log.submitted + [body])
    ensures SentInOrder(log') && AcceptedOnce(log')
    ensures LastAccepted(log') < |log'.submitted|
  {
    LogGrows(log, log');
  }

  /** The socket as nn_req_csend leaves it to the state machine. */
  function Submitted(s: Socket, body: Body): Socket {
    var id := (s.id + 1) % 0x1_0000_0000;
    s.(id := id, request := Request(HeaderOf(id), body), log := s.log.(submitted := s.log.submitted + [body]))
  }

  lemma NextId(first: word, n: nat)
    ensures (IdOf(first, n) + 1) % 0x1_0000_0000 == IdOf(first, n + 1)
  {
  }

  lemma SubmittedHistory(s: Socket, body: Body)
    requires History(s)
    ensures var s' := Submitted(s, body);
            && s'.id == IdOf(s'.log.first, |s'.log.submitted|)
            && SentInOrder(s'.log) && AcceptedOnce(s'.log)
            && s'.request == Submission(s'.log, |s'.log.submitted|)
            && LastAccepted(s'.log) < |s'.log.submitted|
  {
    NextId(s.log.first, |s.log.submitted|);
    Submit(s.log, body, Submitted(s, body).log);
  }

  lemma SendSafe(s: Socket, body: Body, c: Choice)
    requires Inv(s) && s.fsm.FsmActive?
    ensures Step(s, Send(body, c)).Abort? <==> Transmits(s, Send(body, c)) && s.resendIvl < 0
    ensures Step(s, Send(body, c)).Ok? ==> Inv(Step(s, Send(body, c)).socket)
  {
    var s' := Submitted(s, body);
    SubmittedHistory(s, body);
    assert CSend(s, body, c) == Handler(s', FromAction(SendAction), c);
    if s.state.Passive? || s.state.Done? {
      SendRequestSafe(s', true, c);
    } else {
      QueuedSafe(s, s', c);
    }
  }

  /** A submission while another request is under way only replaces the stored request. */
  lemma QueuedSafe(s: Socket, s': Socket, c: Choice)
    requires Control(s) && s.fsm.FsmActive? && !s.state.Passive? && !s.state.Done?
    requires s' == s.(id := s'.id, request := s'.request, log := s'.log)
    requires s'.id == IdOf(s'.log.first, |s'.log.submitted|)
    requires SentInOrder(s'.log) && AcceptedOnce(s'.log) && |s'.log.submitted| > 0
    requires s'.request == Submission(s'.log, |s'.log.submitted|) && LastAccepted(s'.log) < |s'.log.submitted|
    ensures Handler(s', FromAction(SendAction), c).Ok? && Inv(Handler(s', FromAction(SendAction), c).socket)
  {
  }

  lemma PipeOutSafe(s: Socket, p: Pipe, c: Choice)
    requires Inv(s) && Enabled(s, PipeOut(p, c))
    ensures Step(s, PipeOut(p, c)).Abort? <==> Transmits(s, PipeOut(p, c)) && s.resendIvl < 0
    ensures Step(s, PipeOut(p, c)).Ok? ==> Inv(Step(s, PipeOut(p, c)).socket)
  {
    if s.state.Delayed? { SendRequestSafe(s.(writable := s.writable + [p]), false, c); }
  }

  lemma {:induction false} RemoveKeeps(pipes: seq<Pipe>, p: Pipe)
    requires Distinct(pipes)
    ensures Distinct(Remove(pipes, p))
    ensures forall i :: 0 <= i < |Remove(pipes, p)| ==> Remove(pipes, p)[i] in pipes && Remove(pipes, p)[i] != p
    decreases |pipes|
  {
    if pipes != [] {
      RemoveKeeps(pipes[1..], p);
    }
  }

  /** A pipe that the request did not go to leaves; nothing else changes. */
  lemma OtherPipeLeaves(s: Socket, p: Pipe)
    requires Inv(s) && s.sentTo != Some(p)
    ensures Inv(s.(pipes := s.pipes - {p}, writable := Remove(s.writable, p)))
  {
    RemoveKeeps(s.writable, p);
  }

  /** The pipe that the request went to leaves: the request is treated as timed out. */
  lemma SentPipeLeaves(s: Socket, p: Pipe)
    requires Inv(s) && Enabled(s, PipeRm(p)) && s.sentTo == Some(p)
    ensures Step(s, PipeRm(p)).Ok? && Inv(Step(s, PipeRm(p)).socket)
  {
    RemoveKeeps(s.writable, p);
  }

  lemma PipeRmSafe(s: Socket, p: Pipe)
    requires Inv(s) && Enabled(s, PipeRm(p))
    ensures Step(s, PipeRm(p)).Ok? && Inv(Step(s, PipeRm(p)).socket)
  {
    if s.sentTo == Some(p) { SentPipeLeaves(s, p); } else { OtherPipeLeaves(s, p); }
  }

  lemma Accept(log: Log, header: word, body: Body, log': Log)
    requires SentInOrder(log) && AcceptedOnce(log) && |log.submitted| > 0
    requires header == HeaderNumber(log.first, |log.submitted|) && WasSent(log, |log.submitted|)
    requires LastAccepted(log) < |log.submitted|
    requires log' == log.(accepted := log.accepted + [Accepted(header, body, |log.submitted|)])
    ensures SentInOrder(log') && AcceptedOnce(log') && LastAccepted(log') == |log'.submitted|
  {
    LogGrows(log, log');
  }

  lemma {:induction false} PipeInSafe(s: Socket, replies: seq<Incoming>)
    requires Inv(s) && s.fsm.FsmActive?
    ensures Consume(s, replies).Ok? && Inv(Consume(s, replies).socket)
    decreases |replies|
  {
    if replies != [] && Split(replies[0]).Some? {
      var m := Split(replies[0]).value;
      if !Answers(s, m) {
        PipeInSafe(s.(slot := Released), replies[1..]);
      } else if s.state.Active? {
        assert s.log.sent[|s.log.sent| - 1].number == |s.log.submitted|;
        Accept(s.log, GetL(m.header), m.body,
               s.log.(accepted := s.log.accepted + [Accepted(GetL(m.header), m.body, |s.log.submitted|)]));
      }
    }
  }

  /** A section that raised one event hands it to the socket. */
  lemma LeaveOne(s: Socket, e: TimerEvent, c: Choice)
    requires s.events == [e]
    ensures var f := Feed(s.(events := []), FromTimer(e), c);
            Leave(s, c) == if f.Ok? && f.socket.events == [] then f else Abort
  {
    assert s.events[1..] == [];
  }

  /** The start task arms the timer, or does nothing once the timer is stopping. */
  lemma StartTaskSafe(s: Socket, c: Choice)
    requires Inv(s) && s.timer.tasks != [] && s.timer.tasks[0].StartTask?
    ensures Step(s, WorkerTask(c)).Ok? && Inv(Step(s, WorkerTask(c)).socket)
  {
    if s.timer.fsm.FsmStopping? { assert s.timer.tasks[1..] == [StopTask]; }
  }

  /** The socket once the stop task has run and its event has been taken from the queue. */
  function TimerStopped(s: Socket): Socket
  {
    s.(timer := Timer(FsmIdle, TimerIdle, s.timer.timeout, [], false), events := [])
  }

  lemma StopTaskFeeds(s: Socket, c: Choice)
    requires Control(s) && s.timer.tasks == [StopTask]
    ensures var f := Feed(TimerStopped(s), FromTimer(Stopped), c);
            Step(s, WorkerTask(c)) == if f.Ok? && f.socket.events == [] then f else Abort
  {
    var t := s.timer.(tasks := s.timer.tasks[1..]);
    LeaveOne(WithTimer(s, TimerFeed(t, TaskRuns(StopTask))).socket, Stopped, c);
  }

  lemma StopTaskSafe(s: Socket, c: Choice)
    requires Inv(s) && s.timer.tasks == [StopTask]
    ensures Step(s, WorkerTask(c)).Abort? <==> Transmits(s, WorkerTask(c)) && s.resendIvl < 0
    ensures Step(s, WorkerTask(c)).Ok? ==> Inv(Step(s, WorkerTask(c)).socket)
  {
    StopTaskFeeds(s, c);
    if s.state.TimedOut? || s.state.Cancelling? { SendRequestSafe(TimerStopped(s), true, c); }
  }

  lemma WorkerTaskSafe(s: Socket, c: Choice)
    requires Inv(s) && Enabled(s, WorkerTask(c))
    ensures Step(s, WorkerTask(c)).Abort? <==> Transmits(s, WorkerTask(c)) && s.resendIvl < 0
    ensures Step(s, WorkerTask(c)).Ok? ==> Inv(Step(s, WorkerTask(c)).socket)
  {
    if s.timer.tasks[0].StartTask? {
      StartTaskSafe(s, c);
    } else {
      StopTaskSafe(s, c);
    }
  }

  lemma WorkerExpirySafe(s: Socket, c: Choice)
    requires Inv(s) && Enabled(s, WorkerExpiry(c))
    ensures Step(s, WorkerExpiry(c)).Ok? && Inv(Step(s, WorkerExpiry(c)).socket)
  {
    var r := WithTimer(s, TimerFeed(s.timer.(armed := false), Expires));
    if s.state.Active? { LeaveOne(r.socket, Timeout, c); }
  }

  lemma CloseSafe(s: Socket)
    requires Inv(s) && s.fsm.FsmActive?
    ensures Step(s, Close).Ok? && Inv(Step(s, Close).socket)
  {
  }

  /**
   * No step of a reachable socket aborts, except putting a request on the wire while the resend
   * interval is negative; and every other step keeps the invariant.
   */
  lemma StepSafe(s: Socket, ev: Event)
    requires Inv(s) && Enabled(s, ev)
    ensures Step(s, ev).Abort? <==> Transmits(s, ev) && s.resendIvl < 0
    ensures Step(s, ev).Ok? ==> Inv(Step(s, ev).socket)
  {
    match ev
    case Send(body, c) => SendSafe(s, body, c);
    case Recv =>
    case PipeAdd(p) =>
    case PipeOut(p, c) => PipeOutSafe(s, p, c);
    case PipeIn(replies) => PipeInSafe(s, replies);
    case PipeRm(p) => PipeRmSafe(s, p);
    case WorkerTask(c) => WorkerTaskSafe(s, c);
    case WorkerExpiry(c) => WorkerExpirySafe(s, c);
    case SetResendIvl(_) =>
    case Close => CloseSafe(s);
  }

  // ----------------------------------------------------------------------------- whole runs

  /** A run: stimuli that cannot occur in the current state do not happen. */
  function Run(s: Socket, events: seq<Event>): Result
    decreases |events|
  {
    if events == [] then Ok(s)
    else if !Enabled(s, events[0]) then Run(s, events[1..])
    else
      var r := Step(s, events[0]);
      if r.Abort? then Abort else Run(r.socket, events[1..])
  }

  predicate KeepsInterval(events: seq<Event>) {
    forall i :: 0 <= i < |events| && events[i].SetResendIvl? ==> events[i].ivl >= 0
  }

  /** What the options and the first identifier are after a step. */
  ghost predicate SameOptions(s: Socket, r: Result) {
    r.Ok? ==> r.socket.resendIvl == s.resendIvl && r.socket.log.first == s.log.first
  }

  lemma HandlerKeepsOptions(s: Socket, src: Source, c: Choice)
    ensures SameOptions(s, Feed(s, src, c))
  {
  }

  lemma WorkerKeepsOptions(s: Socket, input: TimerInput, c: Choice)
    requires s.events == []
    ensures var r := WithTimer(s, TimerFeed(s.timer, input)); r.Ok? ==> SameOptions(s, Leave(r.socket, c))
  {
    var r := WithTimer(s, TimerFeed(s.timer, input));
    if r.Ok? && r.socket.events != [] {
      var e := r.socket.events[0];
      LeaveOne(r.socket, e, c);
      HandlerKeepsOptions(r.socket.(events := []), FromTimer(e), c);
    }
  }

  lemma SendKeepsInterval(s: Socket, body: Body, c: Choice)
    requires Inv(s) && Enabled(s, Send(body, c)) && Step(s, Send(body, c)).Ok?
    ensures SameOptions(s, Step(s, Send(body, c)))
  {
    HandlerKeepsOptions(Submitted(s, body), FromAction(SendAction), c);
    assert CSend(s, body, c) == Handler(Submitted(s, body), FromAction(SendAction), c);
    SendSafe(s, body, c);
    assert Step(s, Send(body, c)) == CSend(s, body, c);
  }

  lemma StepKeepsInterval(s: Socket, ev: Event)
    requires Inv(s) && Enabled(s, ev) && Step(s, ev).Ok? && !ev.SetResendIvl?
    ensures SameOptions(s, Step(s, ev))
  {
    match ev
    case Send(body, c) => SendKeepsInterval(s, body, c);
    case PipeOut(p, c) => HandlerKeepsOptions(s.(writable := s.writable + [p]), FromAction(Out), c);
    case PipeIn(replies) => ConsumeFrame(s, replies);
    case WorkerTask(c) =>
      WorkerKeepsOptions(s.(timer := s.timer.(tasks := s.timer.tasks[1..])), TaskRuns(s.timer.tasks[0]), c);
    case WorkerExpiry(c) => WorkerKeepsOptions(s.(timer := s.timer.(armed := false)), Expires, c);
    case _ =>
  }

  lemma {:induction false} ConsumeFrame(s: Socket, replies: seq<Incoming>)
    requires Consume(s, replies).Ok?
    ensures Consume(s, replies).socket.resendIvl == s.resendIvl
    ensures Consume(s, replies).socket.log.first == s.log.first
    decreases |replies|
  {
    if replies != [] && Split(replies[0]).Some? && !Answers(s, Split(replies[0]).value) {
      ConsumeFrame(s.(slot := Released), replies[1..]);
    }
  }

  lemma {:induction false} RunFrom(s: Socket, events: seq<Event>)
    requires Inv(s) && s.resendIvl >= 0 && KeepsInterval(events)
    ensures Run(s, events).Ok? && Inv(Run(s, events).socket)
    decreases |events|
  {
    if events != [] {
      if Enabled(s, events[0]) {
        StepSafe(s, events[0]);
        if !events[0].SetResendIvl? { StepKeepsInterval(s, events[0]); }
        RunFrom(Step(s, events[0]).socket, events[1..]);
      } else {
        RunFrom(s, events[1..]);
      }
    }
  }

  /** No run aborts as long as the resend interval is never negative, and all of them keep the invariant. */
  lemma RunSafe(first: word, ivl: nat, events: seq<Event>)
    requires KeepsInterval(events)
    ensures Run(Init(first, ivl), events).Ok? && Inv(Run(Init(first, ivl), events).socket)
  {
    RunFrom(Init(first, ivl), events);
  }

  lemma RunCons(s: Socket, ev: Event, rest: seq<Event>)
    requires Enabled(s, ev)
    ensures Run(s, [ev] + rest) == if Step(s, ev).Abort? then Abort else Run(Step(s, ev).socket, rest)
  {
    assert ([ev] + rest)[1..] == rest;
  }

  /** A negative resend interval, which the option setter accepts, aborts the next request that is sent. */
  lemma NegativeIntervalAborts(first: word, body: Body, c: Choice)
    ensures Run(Init(first, 0), [SetResendIvl(-1)] + ([PipeAdd(7)] + ([PipeOut(7, c)] + ([Send(body, c)] + [])))).Abort?
  {
    var s0 := Init(first, 0);
    var s1 := Step(s0, SetResendIvl(-1)).socket;
    var s2 := Step(s1, PipeAdd(7)).socket;
    var s3 := Step(s2, PipeOut(7, c)).socket;
    RunCons(s0, SetResendIvl(-1), [PipeAdd(7)] + ([PipeOut(7, c)] + ([Send(body, c)] + [])));
    RunCons(s1, PipeAdd(7), [PipeOut(7, c)] + ([Send(body, c)] + []));
    RunCons(s2, PipeOut(7, c), [Send(body, c)] + []);
    RunCons(s3, Send(body, c), []);
    StepSafe(s0, SetResendIvl(-1));
    StepSafe(s1, PipeAdd(7));
    StepSafe(s2, PipeOut(7, c));
    SendSafe(s3, body, c);
  }

  // ----------------------------------------------------------------------- replies and resends

  /** Two submissions have the same header word exactly when they lie a multiple of 2^31 apart. */
  lemma HeaderCollision(first: word, n: nat, m: nat)
    ensures HeaderNumber(first, n) == HeaderNumber(first, m) <==> (n - m) % TOP_BIT == 0
  {
    ModTop(first + n);
    ModTop(first + m);
    SameRest(first + n, first + m);
    assert first + n - (first + m) == n - m;
  }

  /** The word a well-formed reply carries. */
  predicate Carries(m: Incoming, w: word) {
    Split(m).Some? && |Split(m).value.header| == 4 && GetL(Split(m).value.header) == w
  }

  /** Only a reply that carries the current request's identifier completes it. */
  lemma {:induction false} OnlyAnswersComplete(s: Socket, replies: seq<Incoming>)
    requires Inv(s) && s.fsm.FsmActive?
    requires forall i :: 0 <= i < |replies| ==> !Carries(replies[i], HeaderNumber(s.log.first, |s.log.submitted|))
    ensures Consume(s, replies) == Ok(s.(slot := if replies == [] then s.slot else Released))
    decreases |replies|
  {
    if replies != [] && Split(replies[0]).Some? {
      assert !Carries(replies[0], HeaderNumber(s.log.first, |s.log.submitted|));
      assert !Answers(s, Split(replies[0]).value);
      OnlyAnswersComplete(s.(slot := Released), replies[1..]);
    }
  }

  lemma StaleIsNoAnswer(m: Incoming, first: word, n: nat, cur: nat)
    requires cur - TOP_BIT < n < cur && Carries(m, HeaderNumber(first, n))
    ensures !Carries(m, HeaderNumber(first, cur))
  {
    HeaderCollision(first, cur, n);
  }

  /** Replies to earlier requests, less than 2^31 submissions old, change nothing but the reply slot. */
  lemma StaleRepliesIgnored(s: Socket, replies: seq<Incoming>)
    requires Inv(s) && s.fsm.FsmActive?
    requires forall i :: 0 <= i < |replies| ==>
               exists n :: |s.log.submitted| - TOP_BIT < n < |s.log.submitted| && n >= 0
                           && Carries(replies[i], HeaderNumber(s.log.first, n))
    ensures Step(s, PipeIn(replies)) == Ok(s.(slot := if replies == [] then s.slot else Released))
  {
    var cur := |s.log.submitted|;
    forall i | 0 <= i < |replies| ensures !Carries(replies[i], HeaderNumber(s.log.first, cur)) {
      var n :| cur - TOP_BIT < n < cur && n >= 0 && Carries(replies[i], HeaderNumber(s.log.first, n));
      StaleIsNoAnswer(replies[i], s.log.first, n, cur);
    }
    OnlyAnswersComplete(s, replies);
  }

  lemma WorkerDoesNotComplete(s: Socket, ev: Event)
    requires Inv(s) && s.state.Active? && Enabled(s, ev) && (ev.WorkerTask? || ev.WorkerExpiry?)
    ensures Step(s, ev).Ok? ==> !Step(s, ev).socket.state.StoppingTimer?
  {
    if ev.WorkerExpiry? {
      LeaveOne(WithTimer(s, TimerFeed(s.timer.(armed := false), Expires)).socket, Timeout, ev.choice);
    }
  }

  lemma UserDoesNotComplete(s: Socket, ev: Event)
    requires Inv(s) && s.state.Active? && Enabled(s, ev)
    requires !ev.WorkerTask? && !ev.WorkerExpiry? && !ev.PipeIn?
    ensures Step(s, ev).Ok? ==> !Step(s, ev).socket.state.StoppingTimer?
  {
  }

  /** A step that completes the request is the arrival of a reply with its identifier, and nothing else is. */
  lemma CompletionNeedsAnswer(s: Socket, ev: Event)
    requires Inv(s) && Enabled(s, ev) && Step(s, ev).Ok?
    requires s.state.Active? && Step(s, ev).socket.state.StoppingTimer?
    ensures ev.PipeIn?
    ensures exists i :: 0 <= i < |ev.replies| && Carries(ev.replies[i], HeaderNumber(s.log.first, |s.log.submitted|))
  {
    if ev.WorkerTask? || ev.WorkerExpiry? {
      WorkerDoesNotComplete(s, ev);
    } else if !ev.PipeIn? {
      UserDoesNotComplete(s, ev);
    } else if forall i :: 0 <= i < |ev.replies| ==>
                !Carries(ev.replies[i], HeaderNumber(s.log.first, |s.log.submitted|)) {
      OnlyAnswersComplete(s, ev.replies);
    }
  }

  /** The worker runs the timer tasks that are queued now. */
  function WorkerCatchesUp(s: Socket, c: Choice, n: nat): Result
    decreases n
  {
    if n == 0 || s.timer.tasks == [] then Ok(s)
    else
      var r := Step(s, WorkerTask(c));
      if r.Abort? then Abort else WorkerCatchesUp(r.socket, c, n - 1)
  }

  /** The stored request has gone out once more, or waits for a pipe. */
  ghost predicate Resent(s: Socket, r: Result) {
    && r.Ok? && r.socket.request == s.request
    && (if s.writable == [] then r.socket.state.Delayed? && r.socket.log == s.log
        else
          && r.socket.state.Active? && r.socket.sentTo.Some?
          && r.socket.log == s.log.(sent := s.log.sent + [Sent(r.socket.sentTo.value, s.request, |s.log.submitted|)]))
  }

  lemma SendRequestResends(s: Socket, c: Choice)
    requires ReadyToSend(s) && s.resendIvl >= 0
    ensures Resent(s, SendRequest(s, true, c)) && SendRequest(s, true, c).socket.events == []
  {
  }

  lemma StopTaskSends(s: Socket, c: Choice)
    requires Inv(s) && s.resendIvl >= 0 && (s.state.TimedOut? || s.state.Cancelling?) && s.timer.tasks == [StopTask]
    ensures Resent(s, Step(s, WorkerTask(c)))
  {
    StopTaskFeeds(s, c);
    SendRequestResends(TimerStopped(s), c);
  }

  /**
   * A request that timed out, lost its pipe or replaced another is sent as soon as the worker has
   * run the tasks already queued: the same request, once, to a ready pipe, or it waits for one.
   */
  lemma ResendHappens(s: Socket, c: Choice)
    requires Inv(s) && s.resendIvl >= 0 && (s.state.TimedOut? || s.state.Cancelling?)
    ensures Resent(s, WorkerCatchesUp(s, c, |s.timer.tasks|))
  {
    if s.timer.tasks == [StopTask] {
      StopTaskSends(s, c);
    } else {
      var s' := StartTaskSkipped(s, c);
      StopTaskSends(s', c);
      assert WorkerCatchesUp(s', c, 1) == Step(s', WorkerTask(c));
    }
  }

  /** A start task that runs while the timer is stopping does nothing. */
  lemma StartTaskSkipped(s: Socket, c: Choice) returns (s': Socket)
    requires Inv(s) && s.timer.tasks == [StartTask, StopTask] && s.timer.fsm.FsmStopping?
    ensures Step(s, WorkerTask(c)) == Ok(s') && Inv(s')
    ensures s' == s.(timer := s.timer.(tasks := [StopTask]))
  {
    assert s.timer.tasks[1..] == [StopTask];
    s' := s.(timer := s.timer.(tasks := [StopTask]));
  }

  /** A closing socket has stopped once the worker has run the tasks already queued. */
  lemma CloseCompletes(s: Socket, c: Choice)
    requires Inv(s) && s.state.Stopping?
    ensures WorkerCatchesUp(s, c, |s.timer.tasks|).Ok?
    ensures WorkerCatchesUp(s, c, |s.timer.tasks|).socket.state.Idle?
    ensures WorkerCatchesUp(s, c, |s.timer.tasks|).socket.timer.fsm.FsmIdle?
  {
    if s.timer.tasks == [StopTask] {
      StopTaskCloses(s, c);
    } else {
      var s' := StartTaskSkipped(s, c);
      StopTaskCloses(s', c);
      assert WorkerCatchesUp(s', c, 1) == Step(s', WorkerTask(c));
    }
  }

  lemma StopTaskCloses(s: Socket, c: Choice)
    requires Inv(s) && s.state.Stopping? && s.timer.tasks == [StopTask]
    ensures var r := Step(s, WorkerTask(c));
            r.Ok? && r.socket.state.Idle? && r.socket.timer.fsm.FsmIdle? && r.socket.timer.tasks == []
  {
    StopTaskFeeds(s, c);
  }
}
