/**
 * The REQ socket: its nine-state machine composed with the resend timer's machine, both on the
 * common state-machine base, as values.
 *
 * A step is one critical section of the socket's context: a user call, a pipe event, a task or an
 * expiry delivered by the worker thread.  Before the section ends the events raised inside it are
 * drained.  `Abort` stands for a failed assertion or a bad-state, bad-source or bad-action abort.
 * ReqRuns proves what holds over every run; ReqSocket is the same machine with fields assigned in
 * place.
 */
module Req {
  import opened Bytes
  import opened Wire
  import opened Wrappers

  type Pipe = nat
  type Body = seq<byte>

  datatype State = Idle | Passive | Delayed | Active | TimedOut | Cancelling | StoppingTimer | Done | Stopping

  /** The states of the machine base. */
  datatype Fsm = FsmIdle | FsmActive | FsmStopping

  // ---------------------------------------------------------------------------------- timer

  datatype TimerState = TimerIdle | TimerActive | TimerStopping

  datatype Task = StartTask | StopTask

  /** What the timer raises to its owner. */
  datatype TimerEvent = Timeout | Stopped

  /** `tasks` are the timer's entries in the worker's queue; `armed` is its place in the timer set. */
  datatype Timer = Timer(fsm: Fsm, state: TimerState, timeout: int, tasks: seq<Task>, armed: bool)

  datatype TimerInput = StartAction | StopAction | TaskRuns(task: Task) | Expires

  datatype TimerResult = TimerAbort | TimerOk(timer: Timer, raised: Option<TimerEvent>)

  /** nn_worker_execute: an entry that is already queued fails an assertion. */
  function Execute(t: Timer, task: Task): TimerResult {
    if task in t.tasks then TimerAbort else TimerOk(t.(tasks := t.tasks + [task]), None)
  }

  /** nn_timer_handler */
  function TimerHandler(t: Timer, input: TimerInput): TimerResult {
    match t.state
    case TimerIdle =>
      if input.StartAction? then Execute(t.(state := TimerActive), StartTask) else TimerAbort
    case TimerActive =>
      if input == TaskRuns(StartTask) then
        if t.timeout < 0 || t.armed then TimerAbort
        else TimerOk(t.(armed := true, timeout := -1), None)
      else if input.Expires? then
        if t.timeout != -1 then TimerAbort else TimerOk(t, Some(Timeout))
      else TimerAbort
    case TimerStopping => TimerAbort
  }

  /** nn_timer_shutdown */
  function TimerShutdown(t: Timer, input: TimerInput): TimerResult {
    if input.StopAction? then Execute(t.(state := TimerStopping), StopTask)
    else if t.state.TimerStopping? then
      if input != TaskRuns(StopTask) then TimerOk(t, None)
      else if !t.fsm.FsmStopping? then TimerAbort
      else TimerOk(t.(armed := false, state := TimerIdle, fsm := FsmIdle), Some(Stopped))
    else TimerAbort
  }

  /** nn_fsm_feed */
  function TimerFeed(t: Timer, input: TimerInput): TimerResult {
    if t.fsm.FsmStopping? then TimerShutdown(t, input) else TimerHandler(t, input)
  }

  /** nn_timer_start; `stoppedQueued` says whether the timer's stop event is still queued. */
  function TimerStart(t: Timer, timeout: int, stoppedQueued: bool): TimerResult {
    if timeout < 0 || !t.fsm.FsmIdle? || stoppedQueued then TimerAbort
    else
      var r := TimerHandler(t.(timeout := timeout), StartAction);
      if r.TimerAbort? then TimerAbort else r.(timer := r.timer.(fsm := FsmActive))
  }

  /** nn_timer_stop */
  function TimerStop(t: Timer): TimerResult {
    if !t.fsm.FsmActive? then TimerOk(t, None) else TimerShutdown(t.(fsm := FsmStopping), StopAction)
  }

  // --------------------------------------------------------------------------------- socket

  /** A stored request: the word in its protocol header, and its body. */
  datatype Request = Request(header: word, body: Body)

  /** A message as the raw socket delivers it. */
  datatype Message = Message(header: seq<byte>, body: Body)

  /** The slot replies are received into; `Released` once its content has been freed. */
  datatype Slot = Empty | Held(body: Body) | Released

  /** A message that went out: where, what, and which submission it was. */
  datatype Sent = Sent(pipe: Pipe, request: Request, number: nat)

  /** A reply that ended a request: its header and which submission was current. */
  datatype Accepted = Accepted(header: word, body: Body, number: nat)

  /** The history of the socket; no decision looks at it. */
  datatype Log = Log(first: word, submitted: seq<Body>, sent: seq<Sent>, accepted: seq<Accepted>)

  datatype Socket = Socket(
    state: State, fsm: Fsm, id: word, request: Request, slot: Slot, sentTo: Option<Pipe>, resendIvl: int,
    timer: Timer, pipes: set<Pipe>, writable: seq<Pipe>, events: seq<TimerEvent>, log: Log)

  datatype Result = Abort | Ok(socket: Socket)

  /**
   * What the layers below decide when a message is sent: which ready pipe the load balancer picks
   * and whether the pipe leaves its list.
   */
  datatype Choice = Choice(pick: nat, release: bool)

  datatype Action = Start | In | Out | SendAction | Received | PipeRemoved

  datatype Source = FromAction(action: Action) | FromTimer(event: TimerEvent)

  function HeaderOf(id: word): word {
    WithTopBit(id)
  }

  predicate InProgress(s: Socket) {
    !(s.state.Idle? || s.state.Passive? || s.state.Stopping?)
  }

  function Init(first: word, ivl: int): Socket {
    Socket(Passive, FsmActive, first, Request(0, []), Empty, None, ivl,
           Timer(FsmIdle, TimerIdle, -1, [], false), {}, [], [], Log(first, [], [], []))
  }

  /** Bring the timer's result into the socket; a raised event that is already queued fails an assertion. */
  function WithTimer(s: Socket, r: TimerResult): Result {
    if r.TimerAbort? || (r.raised.Some? && r.raised.value in s.events) then Abort
    else Ok(s.(timer := r.timer, events := s.events + if r.raised.Some? then [r.raised.value] else []))
  }

  function StopTimer(s: Socket, next: State): Result {
    var r := WithTimer(s, TimerStop(s.timer));
    if r.Abort? then Abort else Ok(r.socket.(sentTo := None, state := next))
  }

  /** nn_req_action_send */
  function SendRequest(s: Socket, allowDelay: bool, c: Choice): Result {
    if s.writable == [] then
      if allowDelay then Ok(s.(state := Delayed)) else Abort
    else
      var i := c.pick % |s.writable|;
      var to := s.writable[i];
      var s' := s.(writable := if c.release then Without(s.writable, i) else s.writable,
                   log := s.log.(sent := s.log.sent + [Sent(to, s.request, |s.log.submitted|)]));
      var r := WithTimer(s', TimerStart(s'.timer, s'.resendIvl, Stopped in s'.events));
      if r.Abort? then Abort else Ok(r.socket.(sentTo := Some(to), state := Active))
  }

  /** nn_req_handler */
  function Handler(s: Socket, src: Source, c: Choice): Result {
    match s.state
    case Idle =>
      if src == FromAction(Start) then Ok(s.(state := Passive)) else Abort
    case Passive =>
      if src == FromAction(SendAction) then SendRequest(s, true, c) else Abort
    case Delayed =>
      if src == FromAction(Out) then SendRequest(s, false, c)
      else if src == FromAction(SendAction) then Ok(s)
      else Abort
    case Active =>
      if src == FromAction(In) then StopTimer(s, StoppingTimer)
      else if src == FromAction(SendAction) then StopTimer(s, Cancelling)
      else if src == FromAction(PipeRemoved) || src == FromTimer(Timeout) then StopTimer(s, TimedOut)
      else Abort
    case TimedOut =>
      if src == FromTimer(Stopped) then SendRequest(s, true, c)
      else if src == FromAction(SendAction) then Ok(s.(state := Cancelling))
      else Abort
    case Cancelling =>
      if src == FromTimer(Stopped) then SendRequest(s, true, c)
      else if src == FromAction(SendAction) then Ok(s)
      else Abort
    case StoppingTimer =>
      if src == FromTimer(Stopped) then Ok(s.(state := Done))
      else if src == FromAction(SendAction) then Ok(s.(state := Cancelling))
      else Abort
    case Done =>
      if src == FromAction(Received) then Ok(s.(state := Passive))
      else if src == FromAction(SendAction) then SendRequest(s, true, c)
      else Abort
    case Stopping => Abort
  }

  predicate TimerIsIdle(s: Socket) {
    s.timer.fsm.FsmIdle? && Stopped !in s.events
  }

  /** nn_req_shutdown, once the stop action has set the state. */
  function Shutdown(s: Socket): Result {
    if !s.state.Stopping? || !s.fsm.FsmStopping? then Abort
    else if !TimerIsIdle(s) then Ok(s)
    else Ok(s.(state := Idle, fsm := FsmIdle))
  }

  /** nn_fsm_feed */
  function Feed(s: Socket, src: Source, c: Choice): Result {
    if s.fsm.FsmStopping? then Shutdown(s) else Handler(s, src, c)
  }

  /** nn_ctx_leave: process the queued events; handling one raises none. */
  function Leave(s: Socket, c: Choice): Result
    decreases |s.events|
  {
    if s.events == [] then Ok(s)
    else
      var r := Feed(s.(events := s.events[1..]), FromTimer(s.events[0]), c);
      if r.Abort? || |r.socket.events| >= |s.events| then Abort else Leave(r.socket, c)
  }

  // ---------------------------------------------------------------------------------- steps

  /** A message the raw socket takes from a pipe: already split by the transport, or not. */
  datatype Incoming = Raw(bytes: seq<byte>) | Parsed(header: seq<byte>, body: Body)

  /** Everything the outside can do to the socket. */
  datatype Event =
    | Send(body: Body, choice: Choice)
    | Recv
    | PipeAdd(pipe: Pipe)
    | PipeOut(pipe: Pipe, choice: Choice)
    | PipeIn(replies: seq<Incoming>)
    | PipeRm(pipe: Pipe)
    | WorkerTask(choice: Choice)
    | WorkerExpiry(choice: Choice)
    | SetResendIvl(ivl: int)
    | Close

  /** nn_req_csend */
  function CSend(s: Socket, body: Body, c: Choice): Result {
    var id := (s.id + 1) % 0x1_0000_0000;
    Feed(s.(id := id, request := Request(HeaderOf(id), body),
            log := s.log.(submitted := s.log.submitted + [body])),
         FromAction(SendAction), c)
  }

  /** nn_req_crecv; the state is DONE. */
  function CRecv(s: Socket): Result {
    if s.state.Done? then Feed(s.(slot := Empty), FromAction(Received), Choice(0, false)) else Ok(s)
  }

  /** The header word and the body of a message the raw socket delivers, None for a malformed one. */
  function Split(m: Incoming): Option<Message> {
    match m
    case Raw(bytes) => if |bytes| < 4 then None else Some(Message(bytes[..4], bytes[4..]))
    case Parsed(header, body) => Some(Message(header, body))
  }

  /** The checks of nn_req_in on one delivered message. */
  predicate Answers(s: Socket, m: Message) {
    && InProgress(s)
    && |m.header| == 4
    && GetL(m.header) == HeaderOf(s.id)
  }

  /**
   * nn_req_in: messages are received into the reply slot until one answers the request.  A
   * malformed one ends the loop as an empty queue does.
   */
  function Consume(s: Socket, replies: seq<Incoming>): Result
    decreases |replies|
  {
    if replies == [] then Ok(s)
    else
      var m := Split(replies[0]);
      if m.None? then Ok(s.(slot := Released))
      else if !Answers(s, m.value) then Consume(s.(slot := Released), replies[1..])
      else
        var s' := s.(slot := Held(m.value.body));
        var answer := Accepted(GetL(m.value.header), m.value.body, |s.log.submitted|);
        if s.state.Active? then
          Feed(s'.(log := s.log.(accepted := s.log.accepted + [answer])), FromAction(In), Choice(0, false))
        else Ok(s')
  }

  function Remove(pipes: seq<Pipe>, p: Pipe): seq<Pipe> {
    if pipes == [] then []
    else (if pipes[0] == p then [] else [pipes[0]]) + Remove(pipes[1..], p)
  }

  /** Which stimuli the surrounding layers can produce in a state. */
  predicate Enabled(s: Socket, ev: Event) {
    match ev
    case Send(_, _) => s.fsm.FsmActive?
    case Recv => s.fsm.FsmActive?
    case PipeAdd(p) => s.fsm.FsmActive? && p !in s.pipes
    case PipeOut(p, _) => s.fsm.FsmActive? && p in s.pipes && p !in s.writable
    case PipeIn(_) => s.fsm.FsmActive?
    case PipeRm(p) => s.fsm.FsmActive? && p in s.pipes
    case WorkerTask(_) => s.timer.tasks != []
    case WorkerExpiry(_) => s.timer.armed
    case SetResendIvl(_) => s.fsm.FsmActive?
    case Close => s.fsm.FsmActive?
  }

  function Step(s: Socket, ev: Event): Result
    requires Enabled(s, ev)
  {
    match ev
    case Send(body, c) =>
      var r := CSend(s, body, c);
      if r.Abort? then Abort else Leave(r.socket, c)
    case Recv => CRecv(s)
    case PipeAdd(p) => Ok(s.(pipes := s.pipes + {p}))
    case PipeOut(p, c) =>
      var s' := s.(writable := s.writable + [p]);
      if s.state.Delayed? then Feed(s', FromAction(Out), c) else Ok(s')
    case PipeIn(replies) => Consume(s, replies)
    case PipeRm(p) =>
      var s' := s.(pipes := s.pipes - {p}, writable := Remove(s.writable, p));
      if s.sentTo == Some(p) then Feed(s', FromAction(PipeRemoved), Choice(0, false)) else Ok(s')
    case WorkerTask(c) =>
      var t := s.timer.(tasks := s.timer.tasks[1..]);
      var r := WithTimer(s, TimerFeed(t, TaskRuns(s.timer.tasks[0])));
      if r.Abort? then Abort else Leave(r.socket, c)
    case WorkerExpiry(c) =>
      var r := WithTimer(s, TimerFeed(s.timer.(armed := false), Expires));
      if r.Abort? then Abort else Leave(r.socket, c)
    case SetResendIvl(n) => Ok(s.(resendIvl := n))
    case Close =>
      var r := WithTimer(s.(fsm := FsmStopping), TimerStop(s.timer));
      if r.Abort? then Abort else Shutdown(r.socket.(state := Stopping))
  }
}
