/**
 * What becomes of a reply between its arrival and the user's call: every later message is received
 * into the same slot.
 */
module ReqReplies {
  import opened Wire
  import opened Req
  import opened ReqRuns

  /** The header word of the request that was submitted last. */
  function Current(s: Socket): word {
    HeaderNumber(s.log.first, |s.log.submitted|)
  }

  /** The loop of nn_req_in ends at a malformed message and at an answer. */
  predicate EndsLoop(m: Incoming, w: word) {
    Split(m).None? || Carries(m, w)
  }

  /** The reply is in, or has been and waits for the timer. */
  predicate Answered(s: Socket) {
    s.state.StoppingTimer? || s.state.Done?
  }

  /** What the slot holds once messages have arrived. */
  function SlotAfter(slot: Slot, w: word, replies: seq<Incoming>): Slot
    decreases |replies|
  {
    if replies == [] then slot
    else if !EndsLoop(replies[0], w) then SlotAfter(Released, w, replies[1..])
    else if Carries(replies[0], w) then Held(Split(replies[0]).value.body)
    else Released
  }

  /** Messages that arrive once the request is answered change the slot and nothing else. */
  lemma {:induction false} ArrivalFillsSlot(s: Socket, replies: seq<Incoming>)
    requires Inv(s) && Answered(s)
    ensures Step(s, PipeIn(replies)) == Ok(s.(slot := SlotAfter(s.slot, Current(s), replies)))
    decreases |replies|
  {
    if replies != [] && Split(replies[0]).Some? && !Carries(replies[0], Current(s)) {
      ArrivalFillsSlot(s.(slot := Released), replies[1..]);
    }
  }

  /** The first message that ends the loop is an answer with body `body`. */
  ghost predicate Repeats(replies: seq<Incoming>, w: word, body: Body) {
    exists i :: 0 <= i < |replies| && Carries(replies[i], w) && Split(replies[i]).value.body == body
                && forall j :: 0 <= j < i ==> !EndsLoop(replies[j], w)
  }

  lemma {:induction false} SlotHolds(slot: Slot, w: word, replies: seq<Incoming>, body: Body)
    requires replies != []
    ensures SlotAfter(slot, w, replies) == Held(body) <==> Repeats(replies, w, body)
    decreases |replies|
  {
    if EndsLoop(replies[0], w) {
      if Repeats(replies, w, body) {
        var i :| 0 <= i < |replies| && Carries(replies[i], w) && Split(replies[i]).value.body == body
                 && forall j :: 0 <= j < i ==> !EndsLoop(replies[j], w);
        assert i == 0;
      }
    } else {
      var rest := replies[1..];
      if rest != [] { SlotHolds(Released, w, rest, body); }
      if Repeats(rest, w, body) {
        var i :| 0 <= i < |rest| && Carries(rest[i], w) && Split(rest[i]).value.body == body
                 && forall j :: 0 <= j < i ==> !EndsLoop(rest[j], w);
        assert Carries(replies[i + 1], w);
      }
      if Repeats(replies, w, body) {
        var i :| 0 <= i < |replies| && Carries(replies[i], w) && Split(replies[i]).value.body == body
                 && forall j :: 0 <= j < i ==> !EndsLoop(replies[j], w);
        assert Carries(rest[i - 1], w);
        assert forall j :: 0 <= j < i - 1 ==> rest[j] == replies[j + 1];
      }
    }
  }

  /**
   * A reply that the user has not read yet survives an arrival exactly when nothing is delivered, or
   * the first message that is malformed or an answer is an answer with the same body.
   */
  lemma UnreadReplySurvives(s: Socket, replies: seq<Incoming>)
    requires Inv(s) && Answered(s) && s.slot.Held?
    ensures Step(s, PipeIn(replies)).Ok?
    ensures Step(s, PipeIn(replies)).socket.slot == s.slot <==>
              replies == [] || Repeats(replies, Current(s), s.slot.body)
  {
    ArrivalFillsSlot(s, replies);
    if replies != [] { SlotHolds(s.slot, Current(s), replies, s.slot.body); }
  }

  // --------------------------------------------------------------------- over whole runs

  /** Between the answer and the user's next call the socket stays as it is, but for slot and timer. */
  predicate Waits(ev: Event) {
    !ev.Send? && !ev.Recv? && !ev.Close?
  }

  /** What the slot holds after the arrivals of a run. */
  ghost function SlotOver(slot: Slot, w: word, events: seq<Event>): Slot
    decreases |events|
  {
    if events == [] then slot
    else SlotOver(if events[0].PipeIn? then SlotAfter(slot, w, events[0].replies) else slot, w, events[1..])
  }

  lemma WorkerWaits(s: Socket, c: Choice)
    requires Inv(s) && Answered(s) && s.timer.tasks != []
    ensures var r := Step(s, WorkerTask(c));
            r.Ok? && Answered(r.socket) && r.socket.slot == s.slot && r.socket.log == s.log
  {
    if s.timer.tasks == [StopTask] {
      StopTaskFeeds(s, c);
    } else {
      var s' := StartTaskSkipped(s, c);
    }
  }

  lemma WaitStep(s: Socket, ev: Event)
    requires Inv(s) && Answered(s) && Enabled(s, ev) && Waits(ev)
    ensures var r := Step(s, ev);
            && r.Ok? && Inv(r.socket) && Answered(r.socket) && r.socket.log == s.log
            && r.socket.slot == if ev.PipeIn? then SlotAfter(s.slot, Current(s), ev.replies) else s.slot
  {
    StepSafe(s, ev);
    match ev
    case PipeIn(replies) => ArrivalFillsSlot(s, replies);
    case WorkerTask(c) => WorkerWaits(s, c);
    case WorkerExpiry(c) =>
    case _ =>
  }

  /** However long the user waits, the slot holds what the arrivals of that time have made of it. */
  lemma {:induction false} SlotOverRun(s: Socket, events: seq<Event>)
    requires Inv(s) && Answered(s) && forall i :: 0 <= i < |events| ==> Waits(events[i])
    ensures var r := Run(s, events);
            && r.Ok? && Inv(r.socket) && Answered(r.socket) && r.socket.log == s.log
            && r.socket.slot == SlotOver(s.slot, Current(s), events)
    decreases |events|
  {
    if events != [] {
      if Enabled(s, events[0]) {
        WaitStep(s, events[0]);
        SlotOverRun(Step(s, events[0]).socket, events[1..]);
      } else {
        assert !events[0].PipeIn?;
        SlotOverRun(s, events[1..]);
      }
    }
  }

  /** No answer comes before the first malformed message. */
  predicate NoAnswerFirst(replies: seq<Incoming>, w: word) {
    forall i :: 0 <= i < |replies| && Carries(replies[i], w) ==> exists j :: 0 <= j < i && Split(replies[j]).None?
  }

  /** The last arrival that delivered anything delivered no answer before a malformed message. */
  predicate LastFrees(events: seq<Event>, w: word)
    decreases |events|
  {
    events != [] &&
    var last := events[|events| - 1];
    if last.PipeIn? && last.replies != [] then NoAnswerFirst(last.replies, w)
    else LastFrees(events[..|events| - 1], w)
  }

  lemma {:induction false} SlotFreed(slot: Slot, w: word, replies: seq<Incoming>)
    requires replies != []
    ensures SlotAfter(slot, w, replies).Released? <==> NoAnswerFirst(replies, w)
    ensures !SlotAfter(slot, w, replies).Empty?
    decreases |replies|
  {
    var rest := replies[1..];
    if EndsLoop(replies[0], w) {
    } else if rest == [] {
      assert SlotAfter(Released, w, rest) == Released;
    } else {
      SlotFreed(Released, w, rest);
      if NoAnswerFirst(rest, w) {
        forall i | 0 <= i < |replies| && Carries(replies[i], w)
          ensures exists j :: 0 <= j < i && Split(replies[j]).None?
        {
          var j :| 0 <= j < i - 1 && Split(rest[j]).None?;
          assert Split(replies[j + 1]).None?;
        }
      }
      if NoAnswerFirst(replies, w) {
        forall i | 0 <= i < |rest| && Carries(rest[i], w) ensures exists j :: 0 <= j < i && Split(rest[j]).None? {
          assert Carries(replies[i + 1], w);
          var j :| 0 <= j < i + 1 && Split(replies[j]).None?;
          assert Split(rest[j - 1]).None?;
        }
      }
    }
  }

  lemma {:induction false} SlotOverLast(slot: Slot, w: word, events: seq<Event>, last: Event)
    ensures SlotOver(slot, w, events + [last]) ==
            if last.PipeIn? then SlotAfter(SlotOver(slot, w, events), w, last.replies) else SlotOver(slot, w, events)
    decreases |events|
  {
    if events == [] {
      assert [last][1..] == [];
    } else {
      assert (events + [last])[1..] == events[1..] + [last];
      var first := if events[0].PipeIn? then SlotAfter(slot, w, events[0].replies) else slot;
      SlotOverLast(first, w, events[1..], last);
    }
  }

  lemma {:induction false} SlotOverFreed(slot: Slot, w: word, events: seq<Event>)
    requires slot.Held?
    ensures SlotOver(slot, w, events).Released? <==> LastFrees(events, w)
    ensures !SlotOver(slot, w, events).Empty?
    decreases |events|
  {
    if events != [] {
      var init, last := events[..|events| - 1], events[|events| - 1];
      assert events == init + [last];
      SlotOverLast(slot, w, init, last);
      SlotOverFreed(slot, w, init);
      if last.PipeIn? && last.replies != [] { SlotFreed(SlotOver(slot, w, init), w, last.replies); }
    }
  }

  /**
   * The user's call in DONE moves a message out that has been freed already, exactly when the last
   * arrival after the answer that delivered anything delivered no answer before a malformed message;
   * otherwise it moves an answer's body out.
   */
  lemma FreedReplyIsDelivered(s: Socket, events: seq<Event>)
    requires Inv(s) && Answered(s) && s.slot.Held? && forall i :: 0 <= i < |events| ==> Waits(events[i])
    ensures Run(s, events).Ok?
    ensures var r := Run(s, events).socket;
            && Enabled(r, Recv) && Answered(r)
            && (r.slot.Released? <==> LastFrees(events, Current(s)))
            && (r.slot.Held? <==> !LastFrees(events, Current(s)))
            && (r.state.Done? ==> Step(r, Recv).Ok? && Step(r, Recv).socket.slot == Empty)
  {
    SlotOverRun(s, events);
    SlotOverFreed(s.slot, Current(s), events);
    StepSafe(Run(s, events).socket, Recv);
  }

  /** The answer that completes a request is in the slot. */
  lemma {:induction false} AnswerIsHeld(s: Socket, replies: seq<Incoming>)
    requires Inv(s) && s.state.Active? && Consume(s, replies).Ok? && Consume(s, replies).socket.state.StoppingTimer?
    ensures Consume(s, replies).socket.slot == SlotAfter(s.slot, Current(s), replies)
    ensures Consume(s, replies).socket.slot.Held?
    decreases |replies|
  {
    if replies != [] && Split(replies[0]).Some? && !Carries(replies[0], Current(s)) {
      AnswerIsHeld(s.(slot := Released), replies[1..]);
    }
  }

  /** The message that answers the current request with `reply`. */
  function AnswerTo(s: Socket, reply: Body): Incoming {
    Parsed(PutL(HeaderOf(s.id)), reply)
  }

  lemma AnswerArrives(s: Socket, reply: Body)
    requires Inv(s) && s.state.Active?
    ensures var a := Step(s, PipeIn([AnswerTo(s, reply)]));
            && a.Ok? && Inv(a.socket) && a.socket.state.StoppingTimer? && a.socket.slot == Held(reply)
            && Current(a.socket) == Current(s)
  {
    GetPut(HeaderOf(s.id), []);
    assert PutL(HeaderOf(s.id)) + [] == PutL(HeaderOf(s.id));
    StepSafe(s, PipeIn([AnswerTo(s, reply)]));
  }

  lemma TimerStops(s: Socket, c: Choice)
    requires Inv(s) && s.state.StoppingTimer?
    ensures var d := WorkerCatchesUp(s, c, |s.timer.tasks|);
            d.Ok? && Inv(d.socket) && d.socket.state.Done? && d.socket.slot == s.slot && d.socket.log == s.log
  {
    if s.timer.tasks == [StopTask] {
      StopTaskFinishes(s, c);
    } else {
      var s' := StartTaskSkipped(s, c);
      StopTaskFinishes(s', c);
      assert WorkerCatchesUp(s', c, 1) == Step(s', WorkerTask(c));
    }
  }

  lemma StopTaskFinishes(s: Socket, c: Choice)
    requires Inv(s) && s.state.StoppingTimer? && s.timer.tasks == [StopTask]
    ensures var d := Step(s, WorkerTask(c));
            d.Ok? && Inv(d.socket) && d.socket.state.Done? && d.socket.slot == s.slot && d.socket.log == s.log
    ensures Step(s, WorkerTask(c)).socket.timer.tasks == []
  {
    StopTaskFeeds(s, c);
    StepSafe(s, WorkerTask(c));
  }

  /**
   * Every request under way: once it is answered and the timer has stopped, one message too short to
   * be a reply is enough, and the user's call succeeds with what nn_msg_term has freed.
   */
  lemma EveryReplyCanBeFreed(s: Socket, reply: Body, c: Choice) returns (done: Socket, freed: Socket)
    requires Inv(s) && s.state.Active?
    ensures var answered := Step(s, PipeIn([AnswerTo(s, reply)]));
            answered.Ok? && WorkerCatchesUp(answered.socket, c, |answered.socket.timer.tasks|) == Ok(done)
    ensures Inv(done) && done.state.Done? && done.slot == Held(reply)
    ensures Step(done, PipeIn([Raw([])])) == Ok(freed)
    ensures Inv(freed) && freed.state.Done? && freed.slot.Released?
    ensures Step(freed, Recv).Ok? && Step(freed, Recv).socket.state.Passive?
  {
    AnswerArrives(s, reply);
    var answered := Step(s, PipeIn([AnswerTo(s, reply)])).socket;
    TimerStops(answered, c);
    done := WorkerCatchesUp(answered, c, |answered.timer.tasks|).socket;
    ArrivalFillsSlot(done, [Raw([])]);
    StepSafe(done, PipeIn([Raw([])]));
    freed := Step(done, PipeIn([Raw([])])).socket;
    StepSafe(freed, Recv);
  }

  // ------------------------------------------------------------------- when the socket goes

  /** Events that put something into the slot, or take it out. */
  predicate Touches(s: Socket, ev: Event) {
    (ev.PipeIn? && ev.replies != []) || (ev.Recv? && s.state.Done?)
  }

  /** The arrival leaves the slot freed: nothing is under way, or no answer comes before a malformed message. */
  predicate Frees(s: Socket, replies: seq<Incoming>) {
    !InProgress(s) || NoAnswerFirst(replies, Current(s))
  }

  lemma {:induction false} IdleArrival(s: Socket, replies: seq<Incoming>)
    requires !InProgress(s)
    ensures Consume(s, replies) == Ok(s.(slot := if replies == [] then s.slot else Released))
    decreases |replies|
  {
    if replies != [] && Split(replies[0]).Some? { IdleArrival(s.(slot := Released), replies[1..]); }
  }

  lemma {:induction false} BusyArrival(s: Socket, replies: seq<Incoming>)
    requires Inv(s) && InProgress(s) && s.fsm.FsmActive?
    ensures Consume(s, replies).Ok? && Consume(s, replies).socket.slot == SlotAfter(s.slot, Current(s), replies)
    decreases |replies|
  {
    if replies != [] && Split(replies[0]).Some? && !Carries(replies[0], Current(s)) {
      BusyArrival(s.(slot := Released), replies[1..]);
    }
  }

  /** Handling an event leaves the slot as it is. */
  ghost predicate SameSlot(s: Socket, r: Result) {
    r.Ok? ==> r.socket.slot == s.slot
  }

  lemma {:induction false} LeaveKeepsSlot(s: Socket, c: Choice)
    ensures SameSlot(s, Leave(s, c))
    decreases |s.events|
  {
    if s.events != [] {
      var r := Feed(s.(events := s.events[1..]), FromTimer(s.events[0]), c);
      if r.Ok? && |r.socket.events| < |s.events| { LeaveKeepsSlot(r.socket, c); }
    }
  }

  lemma QuietStep(s: Socket, ev: Event)
    requires Enabled(s, ev) && !ev.PipeIn? && !Touches(s, ev)
    ensures SameSlot(s, Step(s, ev))
  {
    match ev
    case Send(body, c) =>
      var r := CSend(s, body, c);
      if r.Ok? { LeaveKeepsSlot(r.socket, c); }
    case WorkerTask(c) =>
      var r := WithTimer(s, TimerFeed(s.timer.(tasks := s.timer.tasks[1..]), TaskRuns(s.timer.tasks[0])));
      if r.Ok? { LeaveKeepsSlot(r.socket, c); }
    case WorkerExpiry(c) =>
      var r := WithTimer(s, TimerFeed(s.timer.(armed := false), Expires));
      if r.Ok? { LeaveKeepsSlot(r.socket, c); }
    case _ =>
  }

  /** What one step does to the slot, in every state. */
  lemma StepSlot(s: Socket, ev: Event)
    requires Inv(s) && Enabled(s, ev) && Step(s, ev).Ok?
    ensures Step(s, ev).socket.slot.Released? <==>
              if Touches(s, ev) then ev.PipeIn? && Frees(s, ev.replies) else s.slot.Released?
  {
    if ev.PipeIn? {
      if InProgress(s) {
        BusyArrival(s, ev.replies);
        if ev.replies != [] { SlotFreed(s.slot, Current(s), ev.replies); }
      } else {
        IdleArrival(s, ev.replies);
      }
    } else if !Touches(s, ev) {
      QuietStep(s, ev);
    }
  }

  lemma {:induction false} RunLast(s: Socket, events: seq<Event>, last: Event)
    ensures Run(s, events + [last]) ==
            var r := Run(s, events);
            if r.Abort? then Abort else if Enabled(r.socket, last) then Step(r.socket, last) else r
    decreases |events|
  {
    if events == [] {
      assert [last][1..] == [];
    } else {
      assert (events + [last])[1..] == events[1..] + [last];
      if !Enabled(s, events[0]) {
        RunLast(s, events[1..], last);
      } else if Step(s, events[0]).Ok? {
        RunLast(Step(s, events[0]).socket, events[1..], last);
      }
    }
  }

  /** The last event of a run that touches the slot is an arrival that leaves it freed. */
  predicate LeftFreed(s: Socket, events: seq<Event>)
    decreases |events|
  {
    if events == [] then s.slot.Released?
    else
      var before, last := events[..|events| - 1], events[|events| - 1];
      var r := Run(s, before);
      if r.Ok? && Enabled(r.socket, last) && Touches(r.socket, last) then
        last.PipeIn? && Frees(r.socket, last.replies)
      else LeftFreed(s, before)
  }

  /** Over every run that does not abort, the slot holds what has been freed exactly when it was left so. */
  lemma {:induction false} RunSlot(s: Socket, events: seq<Event>)
    requires Inv(s) && Run(s, events).Ok?
    ensures Inv(Run(s, events).socket)
    ensures Run(s, events).socket.slot.Released? <==> LeftFreed(s, events)
    decreases |events|
  {
    if events != [] {
      var before, last := events[..|events| - 1], events[|events| - 1];
      assert events == before + [last];
      RunLast(s, before, last);
      RunSlot(s, before);
      var at := Run(s, before).socket;
      if Enabled(at, last) {
        StepSafe(at, last);
        StepSlot(at, last);
      }
    }
  }

  lemma {:induction false} CatchingUpKeepsSlot(s: Socket, c: Choice, n: nat)
    ensures SameSlot(s, WorkerCatchesUp(s, c, n))
    decreases n
  {
    if n > 0 && s.timer.tasks != [] {
      QuietStep(s, WorkerTask(c));
      var r := Step(s, WorkerTask(c));
      if r.Ok? { CatchingUpKeepsSlot(r.socket, c, n - 1); }
    }
  }

  /**
   * A socket that is closed after a run stops. Its reply slot then holds what has been freed already, so that
   * destroying the socket frees it once more, exactly when the last event that touched the slot left it so.
   */
  lemma FreedTwice(s: Socket, events: seq<Event>, c: Choice)
    requires Inv(s) && Run(s, events).Ok? && Enabled(Run(s, events).socket, Close)
    ensures var closed := Step(Run(s, events).socket, Close);
            closed.Ok? &&
            var stopped := WorkerCatchesUp(closed.socket, c, |closed.socket.timer.tasks|);
            && stopped.Ok? && stopped.socket.state.Idle? && stopped.socket.timer.fsm.FsmIdle?
            && (stopped.socket.slot.Released? <==> LeftFreed(s, events))
  {
    RunSlot(s, events);
    var at := Run(s, events).socket;
    StepSafe(at, Close);
    QuietStep(at, Close);
    var closed := Step(at, Close).socket;
    if closed.state.Stopping? { CloseCompletes(closed, c); }
    CatchingUpKeepsSlot(closed, c, |closed.timer.tasks|);
  }

  /** One message that arrives while nothing has been asked is enough. */
  lemma StrayMessageFreedTwice(first: word, m: Incoming)
    ensures var events := [PipeAdd(7)] + [PipeIn([m])];
            Run(Init(first, 0), events).Ok? && Run(Init(first, 0), events).socket.fsm.FsmActive?
            && LeftFreed(Init(first, 0), events)
  {
    var s := Init(first, 0);
    var s1 := s.(pipes := {7});
    assert Step(s, PipeAdd(7)) == Ok(s1);
    RunCons(s, PipeAdd(7), []);
    assert [PipeAdd(7)] + [] == [PipeAdd(7)];
    RunLast(s, [PipeAdd(7)], PipeIn([m]));
    IdleArrival(s1, [m]);
    assert ([PipeAdd(7)] + [PipeIn([m])])[..1] == [PipeAdd(7)];
  }

  /** The socket once it has a writable pipe. */
  function WithPipe(first: word): Socket {
    Init(first, 0).(pipes := {7}, writable := [7])
  }

  lemma PipeComes(first: word, c: Choice, rest: seq<Event>)
    ensures Inv(WithPipe(first))
    ensures Run(Init(first, 0), [PipeAdd(7)] + ([PipeOut(7, c)] + rest)) == Run(WithPipe(first), rest)
  {
    var s0 := Init(first, 0);
    var s1 := s0.(pipes := {7});
    StepSafe(s0, PipeAdd(7));
    assert Step(s0, PipeAdd(7)) == Ok(s1);
    StepSafe(s1, PipeOut(7, c));
    assert Step(s1, PipeOut(7, c)) == Ok(WithPipe(first));
    RunCons(s0, PipeAdd(7), [PipeOut(7, c)] + rest);
    RunCons(s1, PipeOut(7, c), rest);
  }

  /** Three calls after which a request is under way. */
  lemma RequestUnderWay(first: word, ask: Body, c: Choice)
    ensures var r := Run(Init(first, 0), [PipeAdd(7)] + ([PipeOut(7, c)] + ([Send(ask, c)] + [])));
            r.Ok? && Inv(r.socket) && r.socket.state.Active?
  {
    PipeComes(first, c, [Send(ask, c)] + []);
    SendSafe(WithPipe(first), ask, c);
    RunCons(WithPipe(first), Send(ask, c), []);
  }
}
