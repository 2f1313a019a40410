/**
 * The handshake between a socket and its pipes. A pipe is asked to send or to receive only while it is idle;
 * the transport says when that is done, within the call or later, and the pipe then becomes idle again. A
 * socket keeps its idle pipes in a priority list for each direction, the load balancer for sending and the
 * fair queue for receiving; a pipe gets there by an event that the socket's context delivers in order.
 */
module Pipe {
  import opened Wrappers
  import PL = PrioList

  type Pipe = PL.Pipe

  /** The state of one direction: Busy and Done exist only while a send or a receive is under way. */
  datatype Io = Deactivated | Idle | Busy | Done | Async

  datatype PipeState = Stopped | Active | Failed

  datatype Direction = In | Out

  /** One direction of a pipe; `owes` says that the transport has still to report that it is done. */
  datatype End = End(io: Io, owes: bool)

  datatype Event = Event(direction: Direction, pipe: Pipe)

  /** One direction of a socket: its pipes' ends and its priority list. */
  datatype Half = Half(ends: map<Pipe, End>, list: PL.State)

  datatype Socket = Socket(states: map<Pipe, PipeState>, inward: Half, outward: Half, events: seq<Event>) {
    function Side(d: Direction): Half { if d.In? then inward else outward }
  }

  // ------------------------------------------------------------------------- one direction

  /** nn_pipebase_sent and nn_pipebase_received: the new state, and whether an event is raised; None is an abort. */
  function Complete(io: Io): Option<(Io, bool)> {
    match io
    case Busy => Some((Done, false))
    case Async => Some((Idle, true))
    case _ => None
  }

  /**
   * nn_pipe_send and nn_pipe_recv: the new state, and whether the pipe is to be released from its list;
   * `sync` says that the transport reports that it is done within the call.
   */
  function Transfer(io: Io, sync: bool): Option<(Io, bool)> {
    if !io.Idle? then None
    else
      var called := if sync then Complete(Busy) else Some((Busy, false));
      match called
      case None => None
      case Some((Done, _)) => Some((Idle, false))
      case Some((Busy, _)) => Some((Async, true))
      case Some(_) => None
  }

  // ------------------------------------------------------------------------------- calls

  datatype Op =
    | Start(pipe: Pipe, sndprio: int, rcvprio: int, accepted: bool)
    | Stop(pipe: Pipe)
    | Move(direction: Direction, sync: bool)
    | Report(direction: Direction, pipe: Pipe)
    | Deliver

  /** An abort is a failed assertion; Stray is an event of a pipe that the socket no longer has. */
  datatype Result = Abort | Stray | Ok(socket: Socket, moved: Option<Pipe>)

  function StateOf(s: Socket, p: Pipe): PipeState {
    if p in s.states then s.states[p] else Stopped
  }

  predicate Pending(events: seq<Event>, d: Direction, p: Pipe) {
    Event(d, p) in events
  }

  /** nn_fsm_raise: an event that is already in the queue must not be raised again. */
  function Raise(events: seq<Event>, d: Direction, p: Pipe): Option<seq<Event>> {
    if Pending(events, d, p) then None else Some(events + [Event(d, p)])
  }

  function WithSide(s: Socket, d: Direction, h: Half): Socket {
    if d.In? then s.(inward := h) else s.(outward := h)
  }

  ghost predicate ListsOk(s: Socket) {
    PL.Inv(s.inward.list) && PL.Inv(s.outward.list)
  }

  function Register(h: Half, p: Pipe, end: End, list: PL.State): Half {
    Half(h.ends[p := end], list)
  }

  /** nn_pipebase_start; whether the protocol accepts the pipe is up to the protocol. */
  ghost function DoStart(s: Socket, p: Pipe, sndprio: int, rcvprio: int, accepted: bool): Result
    requires ListsOk(s)
  {
    var inEnd, outEnd := End(Async, true), End(Idle, false);
    if StateOf(s, p) != Stopped then Abort
    else if !accepted then
      Ok(s.(states := s.states[p := Failed],
            inward := s.inward.(ends := s.inward.ends[p := inEnd]),
            outward := s.outward.(ends := s.outward.ends[p := outEnd])), None)
    else if !PL.Allowed(s.inward.list, PL.Add(p, rcvprio)) || !PL.Allowed(s.outward.list, PL.Add(p, sndprio)) then Abort
    else
      var raised := Raise(s.events, Out, p);
      if raised.None? then Abort
      else Ok(Socket(s.states[p := Active],
                     Register(s.inward, p, inEnd, PL.Step(s.inward.list, PL.Add(p, rcvprio))),
                     Register(s.outward, p, outEnd, PL.Step(s.outward.list, PL.Add(p, sndprio))),
                     raised.value), None)
  }

  /** nn_pipebase_stop. */
  ghost function DoStop(s: Socket, p: Pipe): Result
    requires ListsOk(s)
  {
    if StateOf(s, p) != Active then Ok(s.(states := s.states[p := Stopped]), None)
    else if !PL.Allowed(s.inward.list, PL.Rm(p)) || !PL.Allowed(s.outward.list, PL.Rm(p)) then Abort
    else Ok(s.(states := s.states[p := Stopped],
               inward := s.inward.(list := PL.Step(s.inward.list, PL.Rm(p))),
               outward := s.outward.(list := PL.Step(s.outward.list, PL.Rm(p)))), None)
  }

  /** nn_lb_send and nn_fq_recv: nothing when no pipe is listed. */
  ghost function DoMove(s: Socket, d: Direction, sync: bool): Result
    requires ListsOk(s)
  {
    var h := s.Side(d);
    var best := PL.GetPipe(h.list);
    if best.None? then Ok(s, None)
    else if best.value !in h.ends then Abort
    else
      var moved := Transfer(h.ends[best.value].io, sync);
      if moved.None? || !PL.Allowed(h.list, PL.Advance(moved.value.1)) then Abort
      else
        var h' := Half(h.ends[best.value := End(moved.value.0, !sync)], PL.Step(h.list, PL.Advance(moved.value.1)));
        Ok(WithSide(s, d, h'), Some(best.value))
  }

  /** The transport reports that a send is done, or that there is a message to receive. */
  ghost function DoReport(s: Socket, d: Direction, p: Pipe): Result {
    var h := s.Side(d);
    if p !in h.ends then Abort
    else
      var done := Complete(h.ends[p].io);
      if done.None? then Abort
      else
        var t := WithSide(s, d, h.(ends := h.ends[p := End(done.value.0, false)]));
        if !done.value.1 then Ok(t, None)
        else
          var raised := Raise(s.events, d, p);
          if raised.None? then Abort else Ok(t.(events := raised.value), None)
  }

  /** The context hands the oldest event to the socket, which activates the pipe. */
  ghost function DoDeliver(s: Socket): Result
    requires ListsOk(s)
  {
    if s.events == [] then Ok(s, None)
    else
      var (d, p) := (s.events[0].direction, s.events[0].pipe);
      var h := s.Side(d);
      if StateOf(s, p) != Active then Stray
      else if !PL.Allowed(h.list, PL.Activate(p)) then Abort
      else Ok(WithSide(s.(events := s.events[1..]), d, h.(list := PL.Step(h.list, PL.Activate(p)))), None)
  }

  ghost function Step(s: Socket, op: Op): Result
    requires ListsOk(s)
  {
    match op
    case Start(p, sndprio, rcvprio, accepted) => DoStart(s, p, sndprio, rcvprio, accepted)
    case Stop(p) => DoStop(s, p)
    case Move(d, sync) => DoMove(s, d, sync)
    case Report(d, p) => DoReport(s, d, p)
    case Deliver => DoDeliver(s)
  }

  /**
   * What the callers promise. A pipe is started only when it is stopped and none of its events is left, with
   * priorities from 1 to 16; the transport of a pipe in use reports once for each thing asked of it.
   */
  predicate Allowed(s: Socket, op: Op) {
    match op
    case Start(p, sndprio, rcvprio, _) =>
      && StateOf(s, p) == Stopped && !Pending(s.events, In, p) && !Pending(s.events, Out, p)
      && 1 <= sndprio <= PL.SLOTS && 1 <= rcvprio <= PL.SLOTS
    case Report(d, p) => StateOf(s, p) == Active && p in s.Side(d).ends && s.Side(d).ends[p].owes
    case _ => true
  }

  // ----------------------------------------------------------------------------- invariant

  /**
   * A registered pipe in a list is idle; an idle one is in the list, or else its event is pending, and never
   * both; one that is not idle waits for the transport.
   */
  ghost predicate PipeOk(end: End, listed: bool, pending: bool) {
    && (end.io.Idle? || end.io.Async?)
    && (end.owes <==> end.io.Async?)
    && (listed ==> end.io.Idle?)
    && (pending <==> end.io.Idle? && !listed)
  }

  ghost function ActiveIn(states: map<Pipe, PipeState>): set<Pipe> {
    set p | p in states && states[p] == Active
  }

  ghost function ListedIn(list: PL.State): set<Pipe> {
    set p | p in list.priority && PL.Listed(list, p)
  }

  ghost function PendingIn(events: seq<Event>, d: Direction): set<Pipe> {
    set i | 0 <= i < |events| && events[i].direction == d :: events[i].pipe
  }

  /** One direction of the registered pipes, given which of them are listed and have an event pending. */
  ghost predicate ViewOk(active: set<Pipe>, ends: map<Pipe, End>, listed: set<Pipe>, pending: set<Pipe>) {
    && listed <= active <= ends.Keys
    && forall p :: p in active ==> PipeOk(ends[p], p in listed, p in pending)
  }

  ghost predicate HalfOk(states: map<Pipe, PipeState>, h: Half, events: seq<Event>, d: Direction) {
    && PL.Inv(h.list)
    && h.list.priority.Keys == ActiveIn(states)
    && ViewOk(ActiveIn(states), h.ends, ListedIn(h.list), PendingIn(events, d))
  }

  ghost predicate Once(events: seq<Event>) {
    forall i, j :: 0 <= i < j < |events| ==> events[i] != events[j]
  }

  ghost predicate Inv(s: Socket) {
    && HalfOk(s.states, s.inward, s.events, In)
    && HalfOk(s.states, s.outward, s.events, Out)
    && Once(s.events)
  }

  const FRESH := Socket(map[], Half(map[], PL.Start()), Half(map[], PL.Start()), [])

  lemma FreshInv()
    ensures Inv(FRESH)
  {
    PL.StartInv();
  }

  lemma PendingMeans(events: seq<Event>, d: Direction, p: Pipe)
    ensures Pending(events, d, p) <==> p in PendingIn(events, d)
  {
    if Pending(events, d, p) {
      var i :| 0 <= i < |events| && events[i] == Event(d, p);
      assert events[i].pipe == p;
    }
    if p in PendingIn(events, d) {
      var i :| 0 <= i < |events| && events[i].direction == d && events[i].pipe == p;
      assert events[i] == Event(d, p);
    }
  }

  lemma Raised(events: seq<Event>, e: Direction, p: Pipe)
    requires !Pending(events, e, p) && Once(events)
    ensures Once(events + [Event(e, p)])
    ensures forall d :: PendingIn(events + [Event(e, p)], d) == PendingIn(events, d) + if d == e then {p} else {}
  {
    forall i | 0 <= i < |events| ensures events[i] != Event(e, p) {
      assert events[i] in events;
    }
    var after := events + [Event(e, p)];
    forall d ensures PendingIn(after, d) == PendingIn(events, d) + if d == e then {p} else {} {
      forall q | q in PendingIn(events, d) ensures q in PendingIn(after, d) {
        var i :| 0 <= i < |events| && events[i].direction == d && events[i].pipe == q;
        assert after[i] == events[i];
      }
      assert after[|events|] == Event(e, p);
    }
  }

  lemma Popped(events: seq<Event>, d: Direction)
    requires events != [] && Once(events)
    ensures Once(events[1..])
    ensures PendingIn(events[1..], d) ==
            PendingIn(events, d) - if events[0].direction == d then {events[0].pipe} else {}
  {
    var after := events[1..];
    forall q | q in PendingIn(after, d)
      ensures q in PendingIn(events, d) && Event(d, q) != events[0]
    {
      var i :| 0 <= i < |after| && after[i].direction == d && after[i].pipe == q;
      assert events[i + 1] == Event(d, q);
    }
    forall q | q in PendingIn(events, d) && Event(d, q) != events[0] ensures q in PendingIn(after, d) {
      var i :| 0 <= i < |events| && events[i].direction == d && events[i].pipe == q;
      assert after[i - 1] == events[i];
    }
  }

  // ------------------------------------------------------------------------ one list, one call

  /** A turn of the list: its best pipe stays, or is released. */
  lemma ListTurns(list: PL.State, release: bool)
    requires PL.Inv(list) && PL.GetPipe(list).Some?
    ensures PL.Allowed(list, PL.Advance(release)) && PL.GetPipe(list).value in ListedIn(list)
    ensures var r := PL.Step(list, PL.Advance(release));
            && PL.Inv(r) && r.priority == list.priority
            && ListedIn(r) == ListedIn(list) - if release then {PL.GetPipe(list).value} else {}
  {
    PL.GetPipeIsBest(list);
    PL.StepKeeps(list, PL.Advance(release));
    var r := PL.Step(list, PL.Advance(release));
    forall q ensures PL.Listed(r, q) <==> PL.ListedNext(list, PL.Advance(release), q) {
      PL.ListedAfter(list, PL.Advance(release), q);
    }
  }

  lemma ListActivates(list: PL.State, p: Pipe)
    requires PL.Inv(list) && p in list.priority && p !in ListedIn(list)
    ensures PL.Allowed(list, PL.Activate(p))
    ensures var r := PL.Step(list, PL.Activate(p));
            PL.Inv(r) && r.priority == list.priority && ListedIn(r) == ListedIn(list) + {p}
  {
    PL.StepKeeps(list, PL.Activate(p));
    var r := PL.Step(list, PL.Activate(p));
    forall q ensures PL.Listed(r, q) <==> PL.Listed(list, q) || q == p {
      PL.ListedAfter(list, PL.Activate(p), q);
    }
  }

  lemma ListRemoves(list: PL.State, p: Pipe)
    requires PL.Inv(list) && p in list.priority
    ensures PL.Allowed(list, PL.Rm(p))
    ensures var r := PL.Step(list, PL.Rm(p));
            PL.Inv(r) && r.priority.Keys == list.priority.Keys - {p} && ListedIn(r) == ListedIn(list) - {p}
  {
    PL.StepKeeps(list, PL.Rm(p));
    var r := PL.Step(list, PL.Rm(p));
    forall q ensures PL.Listed(r, q) <==> PL.Listed(list, q) && q != p {
      PL.ListedAfter(list, PL.Rm(p), q);
    }
  }

  lemma ListAdds(list: PL.State, p: Pipe, priority: int)
    requires PL.Inv(list) && p !in list.priority && 1 <= priority <= PL.SLOTS
    ensures PL.Allowed(list, PL.Add(p, priority))
    ensures var r := PL.Step(list, PL.Add(p, priority));
            PL.Inv(r) && r.priority.Keys == list.priority.Keys + {p} && ListedIn(r) == ListedIn(list)
  {
    PL.StepKeeps(list, PL.Add(p, priority));
    var r := PL.Step(list, PL.Add(p, priority));
    forall q ensures PL.Listed(r, q) <==> PL.Listed(list, q) {
      PL.ListedAfter(list, PL.Add(p, priority), q);
    }
  }

  // ------------------------------------------------------------------------ one half, one call

  /** Events of one direction leave the other direction as it was. */
  lemma OtherEvents(states: map<Pipe, PipeState>, h: Half, before: seq<Event>, after: seq<Event>, d: Direction)
    requires HalfOk(states, h, before, d) && PendingIn(after, d) == PendingIn(before, d)
    ensures HalfOk(states, h, after, d)
  {
  }

  /** A listed pipe is asked: done at once it stays as it is, otherwise it is released and waits. */
  lemma ViewMoves(active: set<Pipe>, ends: map<Pipe, End>, listed: set<Pipe>, pending: set<Pipe>, b: Pipe, sync: bool)
    requires ViewOk(active, ends, listed, pending) && b in listed
    ensures ends[b].io.Idle?
    ensures ViewOk(active, ends[b := End(if sync then Idle else Async, !sync)],
                   listed - if !sync then {b} else {}, pending)
  {
  }

  lemma HalfMoves(states: map<Pipe, PipeState>, h: Half, events: seq<Event>, d: Direction, sync: bool)
    requires HalfOk(states, h, events, d) && PL.GetPipe(h.list).Some?
    ensures var b := PL.GetPipe(h.list).value;
            && b in h.ends && Transfer(h.ends[b].io, sync) == Some((if sync then Idle else Async, !sync))
            && PL.Allowed(h.list, PL.Advance(!sync))
            && HalfOk(states, Half(h.ends[b := End(if sync then Idle else Async, !sync)],
                                   PL.Step(h.list, PL.Advance(!sync))), events, d)
  {
    ListTurns(h.list, !sync);
    ViewMoves(ActiveIn(states), h.ends, ListedIn(h.list), PendingIn(events, d), PL.GetPipe(h.list).value, sync);
  }

  lemma HalfReports(states: map<Pipe, PipeState>, h: Half, events: seq<Event>, d: Direction, p: Pipe)
    requires HalfOk(states, h, events, d) && Once(events) && p in ActiveIn(states) && h.ends[p].owes
    ensures h.ends[p].io == Async && !Pending(events, d, p)
    ensures HalfOk(states, h.(ends := h.ends[p := End(Idle, false)]), events + [Event(d, p)], d)
  {
    PendingMeans(events, d, p);
    assert PipeOk(h.ends[p], p in ListedIn(h.list), p in PendingIn(events, d));
    Raised(events, d, p);
  }

  lemma HalfDelivers(states: map<Pipe, PipeState>, h: Half, events: seq<Event>, d: Direction, p: Pipe)
    requires HalfOk(states, h, events, d) && Once(events) && p in ActiveIn(states)
    requires events != [] && events[0] == Event(d, p)
    ensures PL.Allowed(h.list, PL.Activate(p))
    ensures HalfOk(states, h.(list := PL.Step(h.list, PL.Activate(p))), events[1..], d)
  {
    assert events[0].pipe in PendingIn(events, d);
    assert PipeOk(h.ends[p], p in ListedIn(h.list), p in PendingIn(events, d));
    ListActivates(h.list, p);
    Popped(events, d);
  }

  lemma HalfStops(states: map<Pipe, PipeState>, h: Half, events: seq<Event>, d: Direction, p: Pipe)
    requires HalfOk(states, h, events, d) && p in ActiveIn(states)
    ensures PL.Allowed(h.list, PL.Rm(p))
    ensures HalfOk(states[p := Stopped], h.(list := PL.Step(h.list, PL.Rm(p))), events, d)
  {
    ListRemoves(h.list, p);
    assert ActiveIn(states[p := Stopped]) == ActiveIn(states) - {p};
  }

  lemma HalfStarts(states: map<Pipe, PipeState>, h: Half, events: seq<Event>, d: Direction,
                   p: Pipe, end: End, priority: int)
    requires HalfOk(states, h, events, d) && p !in ActiveIn(states) && 1 <= priority <= PL.SLOTS
    requires PipeOk(end, false, p in PendingIn(events, d))
    ensures PL.Allowed(h.list, PL.Add(p, priority))
    ensures HalfOk(states[p := Active], Register(h, p, end, PL.Step(h.list, PL.Add(p, priority))), events, d)
  {
    ListAdds(h.list, p, priority);
    assert ActiveIn(states[p := Active]) == ActiveIn(states) + {p};
  }

  // ------------------------------------------------------------------------- the whole socket

  /** The call goes through with the invariant kept, or it delivers an event of a pipe that is gone. */
  ghost predicate Safe(s: Socket, op: Op, r: Result) {
    if op.Deliver? && s.events != [] && StateOf(s, s.events[0].pipe) != Active then r.Stray?
    else r.Ok? && Inv(r.socket)
  }

  lemma MoveSafe(s: Socket, d: Direction, sync: bool)
    requires Inv(s)
    ensures Safe(s, Move(d, sync), Step(s, Move(d, sync)))
  {
    if PL.GetPipe(s.Side(d).list).Some? { HalfMoves(s.states, s.Side(d), s.events, d, sync); }
  }

  function Other(d: Direction): Direction {
    if d.In? then Out else In
  }

  /** A socket is as good as its two sides. */
  lemma InvBySides(s: Socket, d: Direction, h: Half)
    requires HalfOk(s.states, h, s.events, d) && HalfOk(s.states, s.Side(Other(d)), s.events, Other(d))
    requires Once(s.events)
    ensures Inv(WithSide(s, d, h))
  {
  }

  /** The socket after the transport of a waiting pipe has reported. */
  function Reported(s: Socket, d: Direction, p: Pipe): Socket {
    var h := s.Side(d);
    WithSide(s.(events := s.events + [Event(d, p)]), d, h.(ends := h.ends[p := End(Idle, false)]))
  }

  lemma ReportIs(s: Socket, d: Direction, p: Pipe)
    requires p in s.Side(d).ends && s.Side(d).ends[p].io.Async? && !Pending(s.events, d, p)
    ensures DoReport(s, d, p) == Ok(Reported(s, d, p), None)
  {
  }

  lemma ReportKeeps(s: Socket, d: Direction, p: Pipe)
    requires Inv(s) && p in ActiveIn(s.states) && s.Side(d).ends[p].owes
    ensures s.Side(d).ends[p].io == Async && !Pending(s.events, d, p) && Inv(Reported(s, d, p))
  {
    var h, events := s.Side(d), s.events + [Event(d, p)];
    HalfReports(s.states, h, s.events, d, p);
    Raised(s.events, d, p);
    OtherEvents(s.states, s.Side(Other(d)), s.events, events, Other(d));
    InvBySides(s.(events := events), d, h.(ends := h.ends[p := End(Idle, false)]));
  }

  lemma ReportSafe(s: Socket, d: Direction, p: Pipe)
    requires Inv(s) && Allowed(s, Report(d, p))
    ensures Safe(s, Report(d, p), Step(s, Report(d, p)))
  {
    assert p in ActiveIn(s.states);
    ReportKeeps(s, d, p);
    ReportIs(s, d, p);
  }

  lemma DeliverActive(s: Socket, d: Direction, p: Pipe)
    requires Inv(s) && s.events != [] && s.events[0] == Event(d, p) && StateOf(s, p) == Active
    ensures DoDeliver(s).Ok? && Inv(DoDeliver(s).socket)
  {
    HalfDelivers(s.states, s.Side(d), s.events, d, p);
    Popped(s.events, Other(d));
    OtherEvents(s.states, s.Side(Other(d)), s.events, s.events[1..], Other(d));
    var h := s.Side(d);
    InvBySides(s.(events := s.events[1..]), d, h.(list := PL.Step(h.list, PL.Activate(p))));
  }

  lemma DeliverSafe(s: Socket)
    requires Inv(s)
    ensures Safe(s, Deliver, Step(s, Deliver))
  {
    if s.events != [] && StateOf(s, s.events[0].pipe) == Active {
      DeliverActive(s, s.events[0].direction, s.events[0].pipe);
    }
  }

  lemma StopSafe(s: Socket, p: Pipe)
    requires Inv(s)
    ensures Safe(s, Stop(p), Step(s, Stop(p)))
  {
    if StateOf(s, p) == Active {
      HalfStops(s.states, s.inward, s.events, In, p);
      HalfStops(s.states, s.outward, s.events, Out, p);
    } else {
      Unregistered(s.states, s.inward, s.events, In, p, Stopped, End(Async, true));
      Unregistered(s.states, s.outward, s.events, Out, p, Stopped, End(Idle, false));
    }
  }

  /** A pipe that is not registered may change its state and its end. */
  lemma Unregistered(states: map<Pipe, PipeState>, h: Half, events: seq<Event>, d: Direction,
                     p: Pipe, state: PipeState, end: End)
    requires HalfOk(states, h, events, d) && p !in ActiveIn(states) && state != Active
    ensures HalfOk(states[p := state], h, events, d)
    ensures HalfOk(states[p := state], h.(ends := h.ends[p := end]), events, d)
  {
    assert ActiveIn(states[p := state]) == ActiveIn(states);
  }

  lemma StartSafe(s: Socket, p: Pipe, sndprio: int, rcvprio: int, accepted: bool)
    requires Inv(s) && Allowed(s, Start(p, sndprio, rcvprio, accepted))
    ensures Safe(s, Start(p, sndprio, rcvprio, accepted), Step(s, Start(p, sndprio, rcvprio, accepted)))
  {
    if accepted {
      var events := s.events + [Event(Out, p)];
      PendingMeans(s.events, In, p);
      PendingMeans(s.events, Out, p);
      Raised(s.events, Out, p);
      OtherEvents(s.states, s.inward, s.events, events, In);
      HalfStarts(s.states, s.inward, events, In, p, End(Async, true), rcvprio);
      StartsOut(s, p, events, sndprio);
    } else {
      Unregistered(s.states, s.inward, s.events, In, p, Failed, End(Async, true));
      Unregistered(s.states, s.outward, s.events, Out, p, Failed, End(Idle, false));
    }
  }

  /** The outward half with the new pipe and its event. */
  lemma StartsOut(s: Socket, p: Pipe, events: seq<Event>, priority: int)
    requires HalfOk(s.states, s.outward, s.events, Out) && p !in ActiveIn(s.states) && 1 <= priority <= PL.SLOTS
    requires PendingIn(events, Out) == PendingIn(s.events, Out) + {p}
    ensures PL.Allowed(s.outward.list, PL.Add(p, priority))
    ensures HalfOk(s.states[p := Active],
                   Register(s.outward, p, End(Idle, false), PL.Step(s.outward.list, PL.Add(p, priority))), events, Out)
  {
    ListAdds(s.outward.list, p, priority);
    assert ActiveIn(s.states[p := Active]) == ActiveIn(s.states) + {p};
  }

  /** No assertion of the handshake or of the lists fails, for any mix of calls and reports. */
  lemma StepSafe(s: Socket, op: Op)
    requires Inv(s) && Allowed(s, op)
    ensures Safe(s, op, Step(s, op))
  {
    match op {
      case Start(p, sndprio, rcvprio, accepted) => StartSafe(s, p, sndprio, rcvprio, accepted);
      case Stop(p) => StopSafe(s, p);
      case Move(d, sync) => MoveSafe(s, d, sync);
      case Report(d, p) => ReportSafe(s, d, p);
      case Deliver => DeliverSafe(s);
    }
  }

  ghost function Run(s: Socket, ops: seq<Op>): Result
    requires Inv(s)
    decreases |ops|
  {
    if ops == [] then Ok(s, None)
    else if !Allowed(s, ops[0]) then Run(s, ops[1..])
    else
      StepSafe(s, ops[0]);
      var r := Step(s, ops[0]);
      if r.Ok? then Run(r.socket, ops[1..]) else r
  }

  lemma {:induction false} RunSafe(s: Socket, ops: seq<Op>)
    requires Inv(s)
    ensures var r := Run(s, ops); !r.Abort? && (r.Ok? ==> Inv(r.socket))
    decreases |ops|
  {
    if ops != [] {
      if !Allowed(s, ops[0]) {
        RunSafe(s, ops[1..]);
      } else {
        StepSafe(s, ops[0]);
        var r := Step(s, ops[0]);
        if r.Ok? { RunSafe(r.socket, ops[1..]); }
      }
    }
  }

  /** Every event in the queue is one of a registered pipe. */
  ghost predicate NoneLeft(s: Socket) {
    forall i :: 0 <= i < |s.events| ==> StateOf(s, s.events[i].pipe) == Active
  }

  /** A pipe is stopped only once its events have been delivered. */
  predicate Tidy(s: Socket, op: Op) {
    op.Stop? && StateOf(s, op.pipe) == Active ==> !Pending(s.events, In, op.pipe) && !Pending(s.events, Out, op.pipe)
  }

  lemma StopStates(s: Socket, p: Pipe)
    requires Inv(s)
    ensures var r := Step(s, Stop(p));
            r.Ok? && r.socket.events == s.events && r.socket.states == s.states[p := Stopped]
  {
    StopSafe(s, p);
  }

  /** No event of `p` is in the queue. */
  lemma NoEvents(events: seq<Event>, p: Pipe)
    ensures !Pending(events, In, p) && !Pending(events, Out, p) <==>
              forall i :: 0 <= i < |events| ==> events[i].pipe != p
  {
    forall i | 0 <= i < |events| && events[i].pipe == p ensures Pending(events, In, p) || Pending(events, Out, p) {
      if events[i].direction.In? { assert events[i] == Event(In, p); } else { assert events[i] == Event(Out, p); }
    }
  }

  lemma TidyStop(s: Socket, p: Pipe)
    requires Inv(s) && NoneLeft(s)
    ensures var r := Step(s, Stop(p));
            r.Ok? && (NoneLeft(r.socket) <==> Tidy(s, Stop(p)))
  {
    StopStates(s, p);
    NoEvents(s.events, p);
    var r := Step(s, Stop(p)).socket;
    assert forall q :: StateOf(r, q) == if q == p then Stopped else StateOf(s, q);
  }

  /** An event goes from the front, or one of a registered pipe is added at the end. */
  ghost predicate QueueMoves(s: Socket, r: Socket) {
    && (forall p :: StateOf(s, p) == Active ==> StateOf(r, p) == Active)
    && (r.events == s.events || (s.events != [] && r.events == s.events[1..])
        || exists e :: r.events == s.events + [e] && StateOf(r, e.pipe) == Active)
  }

  lemma QueueKeeps(s: Socket, r: Socket)
    requires NoneLeft(s) && QueueMoves(s, r)
    ensures NoneLeft(r)
  {
  }

  lemma StartQueue(s: Socket, p: Pipe, sndprio: int, rcvprio: int, accepted: bool)
    requires ListsOk(s) && Step(s, Start(p, sndprio, rcvprio, accepted)).Ok?
    ensures QueueMoves(s, Step(s, Start(p, sndprio, rcvprio, accepted)).socket)
  {
    var r := Step(s, Start(p, sndprio, rcvprio, accepted)).socket;
    if accepted {
      assert r.events == s.events + [Event(Out, p)] && StateOf(r, Event(Out, p).pipe) == Active;
    }
  }

  lemma ReportQueue(s: Socket, d: Direction, p: Pipe)
    requires ListsOk(s) && StateOf(s, p) == Active && Step(s, Report(d, p)).Ok?
    ensures QueueMoves(s, Step(s, Report(d, p)).socket)
  {
    var r := Step(s, Report(d, p)).socket;
    if r.events != s.events {
      assert r.events == s.events + [Event(d, p)] && StateOf(r, Event(d, p).pipe) == Active;
    }
  }

  lemma OtherQueue(s: Socket, op: Op)
    requires ListsOk(s) && (op.Move? || op.Deliver?) && Step(s, op).Ok?
    ensures QueueMoves(s, Step(s, op).socket)
  {
  }

  /** Events of pipes that are gone come only from stopping a pipe whose event is still in the queue. */
  lemma TidyStep(s: Socket, op: Op)
    requires Inv(s) && Allowed(s, op) && NoneLeft(s)
    ensures var r := Step(s, op);
            r.Ok? && (NoneLeft(r.socket) <==> Tidy(s, op))
  {
    StepSafe(s, op);
    match op {
      case Stop(p) => TidyStop(s, p);
      case Start(p, sndprio, rcvprio, accepted) =>
        StartQueue(s, p, sndprio, rcvprio, accepted);
        QueueKeeps(s, Step(s, op).socket);
      case Report(d, p) =>
        ReportQueue(s, d, p);
        QueueKeeps(s, Step(s, op).socket);
      case _ =>
        OtherQueue(s, op);
        QueueKeeps(s, Step(s, op).socket);
    }
  }

  /** Every pipe that a run stops is stopped only once its events have been delivered. */
  ghost predicate AllTidy(s: Socket, ops: seq<Op>)
    requires Inv(s)
    decreases |ops|
  {
    if ops == [] then true
    else if !Allowed(s, ops[0]) then AllTidy(s, ops[1..])
    else
      StepSafe(s, ops[0]);
      var r := Step(s, ops[0]);
      Tidy(s, ops[0]) && (r.Ok? ==> AllTidy(r.socket, ops[1..]))
  }

  /** The event in place `i`, of a pipe that is gone, is still in the queue. */
  ghost predicate LeftIn(s: Socket, i: nat, r: Socket) {
    && i < |s.events| && StateOf(r, s.events[i].pipe) != Active
    && exists j :: 0 <= j < |r.events| && r.events[j] == s.events[i]
  }

  lemma StartLeaves(s: Socket, op: Op, i: nat)
    requires Inv(s) && Allowed(s, op) && op.Start? && Step(s, op).Ok?
    requires i < |s.events| && StateOf(s, s.events[i].pipe) != Active
    ensures LeftIn(s, i, Step(s, op).socket)
  {
    var r := Step(s, op).socket;
    NoEvents(s.events, op.pipe);
    assert r.events[i] == s.events[i];
  }

  lemma CallLeaves(s: Socket, op: Op, i: nat)
    requires ListsOk(s) && !op.Start? && !op.Deliver? && Step(s, op).Ok?
    requires i < |s.events| && StateOf(s, s.events[i].pipe) != Active
    ensures LeftIn(s, i, Step(s, op).socket)
  {
    assert Step(s, op).socket.events[i] == s.events[i];
  }

  lemma DeliveryLeaves(s: Socket, i: nat)
    requires ListsOk(s) && Step(s, Deliver).Ok?
    requires i < |s.events| && StateOf(s, s.events[i].pipe) != Active
    ensures LeftIn(s, i, Step(s, Deliver).socket)
  {
    assert Step(s, Deliver).socket.events[i - 1] == s.events[i];
  }

  /** An event of a pipe that is gone stays in the queue until its delivery ends the run. */
  lemma LeftStays(s: Socket, op: Op)
    requires Inv(s) && Allowed(s, op) && !NoneLeft(s)
    ensures var r := Step(s, op); r.Stray? || (r.Ok? && !NoneLeft(r.socket))
  {
    StepSafe(s, op);
    var i :| 0 <= i < |s.events| && StateOf(s, s.events[i].pipe) != Active;
    if Step(s, op).Ok? {
      match op {
        case Start(_, _, _, _) => StartLeaves(s, op, i);
        case Deliver => DeliveryLeaves(s, i);
        case _ => CallLeaves(s, op, i);
      }
    }
  }

  lemma {:induction false} RunLeaves(s: Socket, ops: seq<Op>)
    requires Inv(s) && !NoneLeft(s)
    ensures var r := Run(s, ops); r.Stray? || (r.Ok? && !NoneLeft(r.socket))
    decreases |ops|
  {
    if ops != [] {
      if !Allowed(s, ops[0]) {
        RunLeaves(s, ops[1..]);
      } else {
        StepSafe(s, ops[0]);
        LeftStays(s, ops[0]);
        var r := Step(s, ops[0]);
        if r.Ok? { RunLeaves(r.socket, ops[1..]); }
      }
    }
  }

  /** A run goes through to its end and leaves no event of a pipe that is gone, exactly when it is tidy. */
  lemma {:induction false} RunTidy(s: Socket, ops: seq<Op>)
    requires Inv(s) && NoneLeft(s)
    ensures AllTidy(s, ops) <==> Run(s, ops).Ok? && NoneLeft(Run(s, ops).socket)
    decreases |ops|
  {
    if ops != [] {
      if !Allowed(s, ops[0]) {
        RunTidy(s, ops[1..]);
      } else {
        StepSafe(s, ops[0]);
        TidyStep(s, ops[0]);
        var r := Step(s, ops[0]).socket;
        if Tidy(s, ops[0]) { RunTidy(r, ops[1..]); } else { RunLeaves(r, ops[1..]); }
      }
    }
  }

  /** A new socket: no run aborts, and exactly the tidy ones go through and leave no such event. */
  lemma RunFromFresh(ops: seq<Op>)
    ensures Inv(FRESH) && !Run(FRESH, ops).Abort?
    ensures AllTidy(FRESH, ops) <==> Run(FRESH, ops).Ok? && NoneLeft(Run(FRESH, ops).socket)
  {
    FreshInv();
    RunSafe(FRESH, ops);
    RunTidy(FRESH, ops);
  }

  lemma RunCons(s: Socket, op: Op, rest: seq<Op>)
    requires Inv(s) && Allowed(s, op)
    ensures Step(s, op).Ok? ==> Inv(Step(s, op).socket) && Run(s, [op] + rest) == Run(Step(s, op).socket, rest)
    ensures !Step(s, op).Ok? ==> Run(s, [op] + rest) == Step(s, op)
  {
    StepSafe(s, op);
    assert ([op] + rest)[1..] == rest;
  }

  /** A registered pipe that is stopped while its event is the next one leaves a stray event. */
  lemma StopThenDeliver(s: Socket, p: Pipe)
    requires Inv(s) && StateOf(s, p) == Active && s.events != [] && s.events[0].pipe == p
    ensures Run(s, [Stop(p)] + ([Deliver] + [])).Stray?
  {
    StopStates(s, p);
    StopSafe(s, p);
    RunCons(s, Stop(p), [Deliver] + []);
    RunCons(Step(s, Stop(p)).socket, Deliver, []);
  }

  /** A pipe that is started and stopped before its OUT event is delivered leaves a stray event. */
  lemma StrayRun()
    ensures Inv(FRESH) && Run(FRESH, [Start(7, 1, 1, true)] + ([Stop(7)] + ([Deliver] + []))).Stray?
  {
    FreshInv();
    StartSafe(FRESH, 7, 1, 1, true);
    RunCons(FRESH, Start(7, 1, 1, true), [Stop(7)] + ([Deliver] + []));
    StopThenDeliver(Step(FRESH, Start(7, 1, 1, true)).socket, 7);
  }

  /** With no event left to deliver, the socket can send exactly when some registered pipe is idle. */
  lemma CanMoveExactly(s: Socket, d: Direction)
    requires Inv(s) && s.events == []
    ensures PL.GetPipe(s.Side(d).list).Some? <==>
            exists p :: p in s.Side(d).ends && StateOf(s, p) == Active && s.Side(d).ends[p].io.Idle?
  {
    var h := s.Side(d);
    PL.GetPipeIsBest(h.list);
    forall p | p in h.list.priority ensures PL.Listed(h.list, p) <==> h.ends[p].io.Idle? {
      assert !Pending(s.events, d, p);
    }
    if PL.GetPipe(h.list).Some? {
      var b := PL.GetPipe(h.list).value;
      assert PL.Listed(h.list, b);
      assert b in h.ends && h.ends[b].io.Idle?;
    }
  }

  // ------------------------------------------------------------------- who is asked, and when

  /** An accepted pipe has its send priority in the load balancer and its receive priority in the fair queue. */
  lemma StartGivesPriorities(s: Socket, p: Pipe, sndprio: int, rcvprio: int, accepted: bool)
    requires Inv(s) && Allowed(s, Start(p, sndprio, rcvprio, accepted))
    ensures var r := Step(s, Start(p, sndprio, rcvprio, accepted));
            && r.Ok? && Inv(r.socket)
            && if accepted then
                 && StateOf(r.socket, p) == Active
                 && p in r.socket.outward.list.priority && r.socket.outward.list.priority[p] == sndprio
                 && p in r.socket.inward.list.priority && r.socket.inward.list.priority[p] == rcvprio
                 && r.socket.events == s.events + [Event(Out, p)]
               else
                 && StateOf(r.socket, p) == Failed && r.socket.events == s.events
                 && r.socket.outward.list == s.outward.list && r.socket.inward.list == s.inward.list
  {
    StartSafe(s, p, sndprio, rcvprio, accepted);
    if accepted {
      PL.PriorityAfter(s.outward.list, PL.Add(p, sndprio), p);
      PL.PriorityAfter(s.inward.list, PL.Add(p, rcvprio), p);
    }
  }

  /** The priorities of a registered pipe, first for sending, then for receiving. */
  ghost predicate HasPriorities(s: Socket, q: Pipe, sndprio: int, rcvprio: int) {
    && StateOf(s, q) == Active
    && q in s.outward.list.priority && s.outward.list.priority[q] == sndprio
    && q in s.inward.list.priority && s.inward.list.priority[q] == rcvprio
  }

  lemma StartKeepsOthers(s: Socket, p: Pipe, sndprio: int, rcvprio: int, accepted: bool, q: Pipe, snd: int, rcv: int)
    requires Inv(s) && Allowed(s, Start(p, sndprio, rcvprio, accepted)) && HasPriorities(s, q, snd, rcv)
    ensures HasPriorities(Step(s, Start(p, sndprio, rcvprio, accepted)).socket, q, snd, rcv)
  {
    StartSafe(s, p, sndprio, rcvprio, accepted);
    if accepted {
      PL.PriorityAfter(s.outward.list, PL.Add(p, sndprio), q);
      PL.PriorityAfter(s.inward.list, PL.Add(p, rcvprio), q);
    }
  }

  lemma StopKeepsOthers(s: Socket, p: Pipe, q: Pipe, snd: int, rcv: int)
    requires Inv(s) && p != q && HasPriorities(s, q, snd, rcv)
    ensures Step(s, Stop(p)).Ok? && HasPriorities(Step(s, Stop(p)).socket, q, snd, rcv)
  {
    StopStates(s, p);
    if StateOf(s, p) == Active {
      PL.PriorityAfter(s.outward.list, PL.Rm(p), q);
      PL.PriorityAfter(s.inward.list, PL.Rm(p), q);
    }
  }

  lemma MoveKeepsPriorities(s: Socket, d: Direction, sync: bool, q: Pipe, snd: int, rcv: int)
    requires Inv(s) && HasPriorities(s, q, snd, rcv)
    ensures Step(s, Move(d, sync)).Ok? && HasPriorities(Step(s, Move(d, sync)).socket, q, snd, rcv)
  {
    MoveSafe(s, d, sync);
    if s.Side(d).list.current > 0 { PL.PriorityAfter(s.Side(d).list, PL.Advance(!sync), q); }
  }

  lemma ActivationKeeps(list: PL.State, p: Pipe)
    requires PL.Inv(list)
    ensures PL.Allowed(list, PL.Activate(p)) ==> PL.Step(list, PL.Activate(p)).priority == list.priority
  {
  }

  /** A socket with one side changed. */
  lemma SideChanged(s: Socket, d: Direction, h: Half)
    ensures var r := WithSide(s, d, h);
            && r.Side(d) == h && r.Side(Other(d)) == s.Side(Other(d))
            && r.events == s.events && r.states == s.states
  {
  }

  lemma DeliverIs(s: Socket)
    requires ListsOk(s) && s.events != [] && Step(s, Deliver).Ok?
    ensures var d, p := s.events[0].direction, s.events[0].pipe;
            && PL.Allowed(s.Side(d).list, PL.Activate(p))
            && Step(s, Deliver) ==
               Ok(WithSide(s.(events := s.events[1..]), d,
                           s.Side(d).(list := PL.Step(s.Side(d).list, PL.Activate(p)))), None)
  {
  }

  /** A change of one side that keeps its list's priorities. */
  lemma SideKeepsPriorities(s: Socket, d: Direction, h: Half, q: Pipe, snd: int, rcv: int)
    requires HasPriorities(s, q, snd, rcv) && h.list.priority == s.Side(d).list.priority
    ensures HasPriorities(WithSide(s, d, h), q, snd, rcv)
  {
  }

  lemma DeliverKeepsPriorities(s: Socket, q: Pipe, snd: int, rcv: int)
    requires Inv(s) && HasPriorities(s, q, snd, rcv) && Step(s, Deliver).Ok?
    ensures HasPriorities(Step(s, Deliver).socket, q, snd, rcv)
  {
    if s.events != [] {
      var d, p := s.events[0].direction, s.events[0].pipe;
      var h := s.Side(d);
      DeliverIs(s);
      ActivationKeeps(h.list, p);
      SideKeepsPriorities(s.(events := s.events[1..]), d, h.(list := PL.Step(h.list, PL.Activate(p))), q, snd, rcv);
    }
  }

  /** A registered pipe keeps both its priorities through every call until it is stopped. */
  lemma StepKeepsPriorities(s: Socket, op: Op, q: Pipe, snd: int, rcv: int)
    requires Inv(s) && Allowed(s, op) && HasPriorities(s, q, snd, rcv) && op != Stop(q) && Step(s, op).Ok?
    ensures HasPriorities(Step(s, op).socket, q, snd, rcv)
  {
    match op {
      case Start(p, sndprio, rcvprio, accepted) => StartKeepsOthers(s, p, sndprio, rcvprio, accepted, q, snd, rcv);
      case Stop(p) => StopKeepsOthers(s, p, q, snd, rcv);
      case Move(d, sync) => MoveKeepsPriorities(s, d, sync, q, snd, rcv);
      case Report(d, p) =>
      case Deliver => DeliverKeepsPriorities(s, q, snd, rcv);
    }
  }

  /** Over every run in which it is not stopped. */
  lemma {:induction false} RunKeepsPriorities(s: Socket, ops: seq<Op>, q: Pipe, snd: int, rcv: int)
    requires Inv(s) && HasPriorities(s, q, snd, rcv) && Run(s, ops).Ok?
    requires forall i :: 0 <= i < |ops| ==> ops[i] != Stop(q)
    ensures HasPriorities(Run(s, ops).socket, q, snd, rcv)
    decreases |ops|
  {
    if ops != [] {
      if !Allowed(s, ops[0]) {
        RunKeepsPriorities(s, ops[1..], q, snd, rcv);
      } else {
        StepSafe(s, ops[0]);
        StepKeepsPriorities(s, ops[0], q, snd, rcv);
        RunKeepsPriorities(Step(s, ops[0]).socket, ops[1..], q, snd, rcv);
      }
    }
  }

  /** A listed pipe of the best priority. */
  ghost predicate BestListed(list: PL.State, p: Pipe) {
    PL.Listed(list, p) && forall q :: PL.Listed(list, q) ==> list.priority[p] <= list.priority[q]
  }

  lemma BestIsOffered(list: PL.State)
    requires PL.Inv(list)
    ensures PL.GetPipe(list) == None <==> forall p :: !PL.Listed(list, p)
    ensures PL.GetPipe(list).Some? ==> BestListed(list, PL.GetPipe(list).value)
  {
    PL.GetPipeIsBest(list);
  }

  /** The end of a pipe that has been asked. */
  function Asked(sync: bool): End {
    if sync then End(Idle, false) else End(Async, true)
  }

  /** What a send or a receive comes to. */
  lemma MoveIs(s: Socket, d: Direction, sync: bool)
    requires Inv(s)
    ensures var (h, best) := (s.Side(d), PL.GetPipe(s.Side(d).list));
            if best.None? then Step(s, Move(d, sync)) == Ok(s, None)
            else
              && best.value in h.ends && h.ends[best.value].io.Idle? && PL.Allowed(h.list, PL.Advance(!sync))
              && Step(s, Move(d, sync)) ==
                 Ok(WithSide(s, d, Half(h.ends[best.value := Asked(sync)], PL.Step(h.list, PL.Advance(!sync)))), best)
  {
    var h := s.Side(d);
    if PL.GetPipe(h.list).Some? { HalfMoves(s.states, h, s.events, d, sync); }
  }

  /** After its turn a pipe stays listed exactly when it is done within the call. */
  lemma TurnLists(list: PL.State, sync: bool)
    requires PL.Inv(list) && PL.GetPipe(list).Some? && PL.Allowed(list, PL.Advance(!sync))
    ensures forall q :: PL.Listed(PL.Step(list, PL.Advance(!sync)), q) <==>
                        PL.Listed(list, q) && (q != PL.GetPipe(list).value || sync)
  {
    forall q
      ensures PL.Listed(PL.Step(list, PL.Advance(!sync)), q) <==>
                PL.Listed(list, q) && (q != PL.GetPipe(list).value || sync)
    {
      PL.ListedAfter(list, PL.Advance(!sync), q);
    }
  }

  /** Only one pipe's end and list have changed, on one side. */
  ghost predicate OnlyAsked(s: Socket, d: Direction, p: Pipe, sync: bool, r: Socket) {
    && r.events == s.events && r.states == s.states && r.Side(Other(d)) == s.Side(Other(d))
    && p in s.Side(d).ends && r.Side(d).ends == s.Side(d).ends[p := Asked(sync)]
    && forall q :: PL.Listed(r.Side(d).list, q) <==> PL.Listed(s.Side(d).list, q) && (q != p || sync)
  }

  lemma TurnOnlyAsks(s: Socket, d: Direction, sync: bool)
    requires Inv(s) && PL.GetPipe(s.Side(d).list).Some?
    ensures Step(s, Move(d, sync)).Ok? && Step(s, Move(d, sync)).moved == PL.GetPipe(s.Side(d).list)
    ensures OnlyAsked(s, d, PL.GetPipe(s.Side(d).list).value, sync, Step(s, Move(d, sync)).socket)
  {
    var h := s.Side(d);
    var p := PL.GetPipe(h.list).value;
    MoveIs(s, d, sync);
    TurnLists(h.list, sync);
    SideChanged(s, d, Half(h.ends[p := Asked(sync)], PL.Step(h.list, PL.Advance(!sync))));
  }

  /**
   * A send or a receive asks a listed pipe of the best priority for that direction, and nobody when none is
   * listed; that pipe stays listed exactly when it is done within the call, and nothing else changes.
   */
  lemma MoveServesBest(s: Socket, d: Direction, sync: bool)
    requires Inv(s)
    ensures var r := Step(s, Move(d, sync));
            && r.Ok?
            && (r.moved.None? <==> forall p :: !PL.Listed(s.Side(d).list, p))
            && (r.moved.None? ==> r.socket == s)
            && (r.moved.Some? ==>
                  && BestListed(s.Side(d).list, r.moved.value) && OnlyAsked(s, d, r.moved.value, sync, r.socket)
                  && s.Side(d).ends[r.moved.value].io.Idle?)
  {
    BestIsOffered(s.Side(d).list);
    MoveIs(s, d, sync);
    if PL.GetPipe(s.Side(d).list).Some? { TurnOnlyAsks(s, d, sync); }
  }

  lemma ActivationLists(list: PL.State, p: Pipe)
    requires PL.Inv(list) && PL.Allowed(list, PL.Activate(p))
    ensures forall q :: PL.Listed(PL.Step(list, PL.Activate(p)), q) <==> PL.Listed(list, q) || q == p
  {
    forall q ensures PL.Listed(PL.Step(list, PL.Activate(p)), q) <==> PL.Listed(list, q) || q == p {
      PL.ListedAfter(list, PL.Activate(p), q);
    }
  }

  /** The first event has gone, and its pipe is listed on its side. */
  ghost predicate OnlyListed(s: Socket, d: Direction, p: Pipe, r: Socket) {
    && s.events != [] && r.events == s.events[1..] && r.states == s.states
    && r.Side(Other(d)) == s.Side(Other(d)) && r.Side(d).ends == s.Side(d).ends
    && forall q :: PL.Listed(r.Side(d).list, q) <==> PL.Listed(s.Side(d).list, q) || q == p
  }

  lemma DeliveryChanges(s: Socket)
    requires ListsOk(s) && s.events != [] && Step(s, Deliver).Ok?
    ensures OnlyListed(s, s.events[0].direction, s.events[0].pipe, Step(s, Deliver).socket)
  {
    var d, p := s.events[0].direction, s.events[0].pipe;
    var h := s.Side(d);
    DeliverIs(s);
    SideChanged(s.(events := s.events[1..]), d, h.(list := PL.Step(h.list, PL.Activate(p))));
    ActivationLists(h.list, p);
  }

  /** The next event of a registered pipe lists that pipe on its side, and nothing else changes. */
  lemma DeliveryLists(s: Socket)
    requires Inv(s) && s.events != [] && StateOf(s, s.events[0].pipe) == Active
    ensures Step(s, Deliver).Ok?
    ensures OnlyListed(s, s.events[0].direction, s.events[0].pipe, Step(s, Deliver).socket)
  {
    DeliverSafe(s);
    DeliveryChanges(s);
  }

  /** A report lets its pipe be idle and puts its event at the end of the queue. */
  lemma ReportQueues(s: Socket, d: Direction, p: Pipe)
    requires Inv(s) && Allowed(s, Report(d, p))
    ensures Step(s, Report(d, p)) == Ok(Reported(s, d, p), None) && Inv(Reported(s, d, p))
  {
    assert p in ActiveIn(s.states);
    ReportKeeps(s, d, p);
    ReportIs(s, d, p);
  }

  // ----------------------------------------------------------------------------- in place

  /** The queue of events of a socket's context. */
  class Context {
    var events: seq<Event>

    /** nn_ctx_raise. */
    method Enqueue(e: Event)
      requires e !in events
      modifies this
      ensures Raise(old(events), e.direction, e.pipe) == Some(events)
    {
      events := events + [e];
    }
  }

  /** nn_pipebase. What its assertions ask for is required; the socket above shows that it always holds. */
  class PipeBase {
    const id: Pipe
    const ctx: Context
    var state: PipeState
    var instate: Io
    var outstate: Io

    constructor (id: Pipe, ctx: Context)
      ensures this.id == id && this.ctx == ctx
      ensures state == Stopped && instate == Deactivated && outstate == Deactivated
    {
      this.id, this.ctx := id, ctx;
      state, instate, outstate := Stopped, Deactivated, Deactivated;
    }

    /** nn_pipebase_start, with the protocol's answer. */
    method Start(accepted: bool) returns (started: bool)
      requires state == Stopped && !Pending(ctx.events, Out, id)
      modifies this, ctx
      ensures started == accepted && instate == Async && outstate == Idle
      ensures state == if accepted then Active else Failed
      ensures if accepted then Raise(old(ctx.events), Out, id) == Some(ctx.events) else ctx.events == old(ctx.events)
    {
      state := Active;
      instate := Async;
      outstate := Idle;
      if !accepted {
        state := Failed;
        return false;
      }
      ctx.Enqueue(Event(Out, id));
      return true;
    }

    /** nn_pipebase_stop: whether the pipe has to be taken out of the socket. */
    method Stop() returns (registered: bool)
      modifies `state
      ensures registered <==> old(state) == Active
      ensures state == Stopped
    {
      registered := state == Active;
      state := Stopped;
    }

    /** nn_pipebase_received. */
    method Received()
      requires instate.Busy? || (instate.Async? && !Pending(ctx.events, In, id))
      modifies `instate, ctx
      ensures Complete(old(instate)) == Some((instate, old(instate).Async?))
      ensures if old(instate).Async? then Raise(old(ctx.events), In, id) == Some(ctx.events)
              else ctx.events == old(ctx.events)
    {
      if instate == Busy {
        instate := Done;
        return;
      }
      instate := Idle;
      ctx.Enqueue(Event(In, id));
    }

    /** nn_pipebase_sent. */
    method Sent()
      requires outstate.Busy? || (outstate.Async? && !Pending(ctx.events, Out, id))
      modifies `outstate, ctx
      ensures Complete(old(outstate)) == Some((outstate, old(outstate).Async?))
      ensures if old(outstate).Async? then Raise(old(ctx.events), Out, id) == Some(ctx.events)
              else ctx.events == old(ctx.events)
    {
      if outstate == Busy {
        outstate := Done;
        return;
      }
      outstate := Idle;
      ctx.Enqueue(Event(Out, id));
    }

    /** nn_pipe_send; a transport that is done within the call reports so from there. */
    method Send(sync: bool) returns (release: bool)
      requires outstate.Idle?
      modifies `outstate, ctx
      ensures Transfer(old(outstate), sync) == Some((outstate, release)) && ctx.events == old(ctx.events)
    {
      outstate := Busy;
      if sync { Sent(); }
      if outstate == Done {
        outstate := Idle;
        return false;
      }
      outstate := Async;
      return true;
    }

    /** nn_pipe_recv. */
    method Recv(sync: bool) returns (release: bool)
      requires instate.Idle?
      modifies `instate, ctx
      ensures Transfer(old(instate), sync) == Some((instate, release)) && ctx.events == old(ctx.events)
    {
      instate := Busy;
      if sync { Received(); }
      if instate == Done {
        instate := Idle;
        return false;
      }
      instate := Async;
      return true;
    }
  }
}
