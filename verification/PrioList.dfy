/**
 * The priority list under the fair queue and the load balancer: sixteen slots, one for each priority, each
 * with a list of active pipes and a pipe whose turn it is.
 */
module PrioList {
  import opened Wrappers

  type Pipe = nat
  const SLOTS := 16

  datatype Slot = Slot(pipes: seq<Pipe>, current: Option<Pipe>)

  ghost predicate SlotOk(s: Slot) {
    && Distinct(s.pipes)
    && (s.current.None? <==> s.pipes == [])
    && (s.current.Some? ==> s.current.value in s.pipes)
  }

  ghost function Index(ps: seq<Pipe>, p: Pipe): (i: nat)
    requires p in ps
    ensures i < |ps| && ps[i] == p
  {
    var i: nat :| i < |ps| && ps[i] == p;
    i
  }

  // ------------------------------------------------------------------------ turns in a slot

  /** The pipes of a slot in the order of their turns, the current one first. */
  ghost function Turns(s: Slot): seq<Pipe>
    requires SlotOk(s)
  {
    if s.pipes == [] then []
    else
      var i := Index(s.pipes, s.current.value);
      s.pipes[i..] + s.pipes[..i]
  }

  /** How many of the pipes come before the current one in the list, so are due after its end. */
  ghost function Wrapped(s: Slot): nat
    requires SlotOk(s)
  {
    if s.pipes == [] then 0 else Index(s.pipes, s.current.value)
  }

  /** The pipe at place `i`, or the first one beyond the end of the list. */
  function Around(ps: seq<Pipe>, i: nat): Option<Pipe> {
    if i < |ps| then Some(ps[i]) else if ps != [] then Some(ps[0]) else None
  }

  ghost function SlotRm(s: Slot, p: Pipe): Slot
    requires SlotOk(s)
  {
    if p !in s.pipes then s
    else
      var i := Index(s.pipes, p);
      Slot(Without(s.pipes, i), if s.current == Some(p) then Around(Without(s.pipes, i), i) else s.current)
  }

  function SlotActivate(s: Slot, p: Pipe): Slot {
    Slot(s.pipes + [p], if s.pipes == [] then Some(p) else s.current)
  }

  ghost function SlotAdvance(s: Slot, release: bool): Slot
    requires SlotOk(s) && s.pipes != []
  {
    if release then SlotRm(s, s.current.value)
    else Slot(s.pipes, Around(s.pipes, Index(s.pipes, s.current.value) + 1))
  }

  /** The turns start at the place of the current pipe, whatever place was chosen for it. */
  lemma TurnsAt(s: Slot, i: nat)
    requires SlotOk(s) && i < |s.pipes| && s.current == Some(s.pipes[i])
    ensures Turns(s) == s.pipes[i..] + s.pipes[..i] && Wrapped(s) == i
  {
    assert Index(s.pipes, s.pipes[i]) == i;
  }

  lemma RmOk(s: Slot, p: Pipe)
    requires SlotOk(s)
    ensures SlotOk(SlotRm(s, p)) && p !in SlotRm(s, p).pipes
    ensures forall q :: q in SlotRm(s, p).pipes <==> q in s.pipes && q != p
  {
    if p in s.pipes { WithoutAt(s.pipes, Index(s.pipes, p)); }
  }

  lemma AdvanceOk(s: Slot, release: bool)
    requires SlotOk(s) && s.pipes != []
    ensures SlotOk(SlotAdvance(s, release))
  {
    RmOk(s, s.current.value);
  }

  /** Without release the first pipe goes to the end of the order of turns. */
  lemma AdvanceTurns(s: Slot)
    requires SlotOk(s) && s.pipes != []
    ensures SlotOk(SlotAdvance(s, false))
    ensures Turns(SlotAdvance(s, false)) == Turns(s)[1..] + [Turns(s)[0]]
  {
    var i := Index(s.pipes, s.current.value);
    AdvanceOk(s, false);
    TurnsAt(SlotAdvance(s, false), if i + 1 < |s.pipes| then i + 1 else 0);
  }

  lemma TurnsDistinct(s: Slot)
    requires SlotOk(s)
    ensures Distinct(Turns(s)) && |Turns(s)| == |s.pipes|
    ensures forall p :: p in Turns(s) <==> p in s.pipes
  {
    if s.pipes != [] {
      var i := Index(s.pipes, s.current.value);
      assert s.pipes == s.pipes[..i] + s.pipes[i..];
    }
  }

  /** How long a pipe at place `i` waits when the one at place `c` of `n` is current. */
  function Ahead(n: nat, c: nat, i: nat): nat
    requires c < n && i < n
  {
    if i >= c then i - c else i - c + n
  }

  /** Where the current pipe is once the pipe at place `i` has gone. */
  function Shifted(n: nat, c: nat, i: nat): nat
    requires c < n && i < n && n > 1
    ensures Shifted(n, c, i) < n - 1
  {
    if c > i then c - 1 else if c == n - 1 == i then 0 else c
  }

  lemma TurnsWithout(ps: seq<Pipe>, c: nat, i: nat)
    requires c < |ps| && i < |ps| && |ps| > 1
    ensures var d := Shifted(|ps|, c, i);
            Without(ps, i)[d..] + Without(ps, i)[..d] == Without(ps[c..] + ps[..c], Ahead(|ps|, c, i))
  {
    var n, d, t := |ps|, Shifted(|ps|, c, i), Ahead(|ps|, c, i);
    var w, turns := Without(ps, i), ps[c..] + ps[..c];
    assert forall j :: 0 <= j < n - 1 ==> w[j] == if j < i then ps[j] else ps[j + 1];
    assert forall j :: 0 <= j < n ==> turns[j] == if c + j < n then ps[c + j] else ps[c + j - n];
    forall j | 0 <= j < n - 1 ensures (w[d..] + w[..d])[j] == Without(turns, t)[j] {
      assert Without(turns, t)[j] == if j < t then turns[j] else turns[j + 1];
    }
  }

  lemma RmCurrent(s: Slot, i: nat)
    requires SlotOk(s) && i < |s.pipes| && |s.pipes| > 1
    ensures var r := SlotRm(s, s.pipes[i]);
            && r.pipes == Without(s.pipes, i)
            && r.current == Some(r.pipes[Shifted(|s.pipes|, Index(s.pipes, s.current.value), i)])
  {
    assert Index(s.pipes, s.pipes[i]) == i;
  }

  lemma TurnsIndex(s: Slot, i: nat)
    requires SlotOk(s) && i < |s.pipes|
    ensures s.pipes[i] in Turns(s)
    ensures Index(Turns(s), s.pipes[i]) == Ahead(|s.pipes|, Index(s.pipes, s.current.value), i)
  {
    TurnsDistinct(s);
    assert Turns(s)[Ahead(|s.pipes|, Index(s.pipes, s.current.value), i)] == s.pipes[i];
  }

  /** A removed pipe drops out of the order of turns, which is otherwise the same. */
  lemma RmTurns(s: Slot, p: Pipe)
    requires SlotOk(s) && p in s.pipes
    ensures SlotOk(SlotRm(s, p)) && p in Turns(s)
    ensures Turns(SlotRm(s, p)) == Without(Turns(s), Index(Turns(s), p))
  {
    var i := Index(s.pipes, p);
    RmOk(s, p);
    TurnsIndex(s, i);
    if |s.pipes| > 1 {
      var c := Index(s.pipes, s.current.value);
      RmCurrent(s, i);
      TurnsAt(SlotRm(s, p), Shifted(|s.pipes|, c, i));
      TurnsWithout(s.pipes, c, i);
    }
  }

  /** An activated pipe is served after the end of the list, before the pipes that have had their turn. */
  lemma ActivateTurns(s: Slot, p: Pipe)
    requires SlotOk(s) && p !in s.pipes
    ensures SlotOk(SlotActivate(s, p))
    ensures var k := |s.pipes| - Wrapped(s);
            Turns(SlotActivate(s, p)) == Turns(s)[..k] + [p] + Turns(s)[k..]
  {
    var a := SlotActivate(s, p);
    assert p in a.pipes by { assert a.pipes[|s.pipes|] == p; }
    if s.pipes == [] {
      TurnsAt(a, 0);
    } else {
      assert a.pipes[Wrapped(s)] == s.current.value;
      TurnsAt(a, Wrapped(s));
    }
  }

  // --------------------------------------------------------------------------- sixteen slots

  /** The slots, the number of the current one or -1, and the priority of each pipe that was added. */
  datatype State = State(slots: seq<Slot>, current: int, priority: map<Pipe, int>)

  /** The first slot from `k` on that has a pipe, counted from one, or -1. */
  function TopFrom(slots: seq<Slot>, k: nat): (r: int)
    requires k <= |slots|
    ensures r == -1 || (k < r <= |slots| && slots[r - 1].pipes != [])
    ensures forall j :: k <= j < (if r == -1 then |slots| else r - 1) ==> slots[j].pipes == []
    decreases |slots| - k
  {
    if k == |slots| then -1 else if slots[k].pipes != [] then k + 1 else TopFrom(slots, k + 1)
  }

  /** What makes a number the top: it is found whatever empty slots the search starts behind. */
  lemma {:induction false} TopIs(slots: seq<Slot>, k: nat, r: int)
    requires k <= |slots| && (r == -1 || (k < r <= |slots| && slots[r - 1].pipes != []))
    requires forall j :: k <= j < (if r == -1 then |slots| else r - 1) ==> slots[j].pipes == []
    ensures TopFrom(slots, k) == r
    decreases |slots| - k
  {
    if k < |slots| && slots[k].pipes == [] { TopIs(slots, k + 1, r); }
  }

  ghost predicate EmptyBefore(slots: seq<Slot>, current: int) {
    forall j :: 0 <= j < current - 1 && j < |slots| ==> slots[j].pipes == []
  }

  function Start(): State {
    State(seq(SLOTS, _ => Slot([], None)), -1, map[])
  }

  ghost predicate Placed(slots: seq<Slot>, priority: map<Pipe, int>) {
    forall k, p :: 0 <= k < |slots| && p in slots[k].pipes ==> p in priority && priority[p] == k + 1
  }

  /**
   * `current` is the slot of the highest priority that has a pipe, or -1 if none has; each slot's current
   * pipe is in its list, and there is none exactly when the list is empty.
   */
  ghost predicate Inv(s: State) {
    && |s.slots| == SLOTS
    && (forall k :: 0 <= k < SLOTS ==> SlotOk(s.slots[k]))
    && Placed(s.slots, s.priority)
    && (forall p :: p in s.priority ==> 1 <= s.priority[p] <= SLOTS)
    && s.current == TopFrom(s.slots, 0)
  }

  datatype Op = Add(pipe: Pipe, priority: int) | Rm(pipe: Pipe) | Activate(pipe: Pipe) | Advance(release: bool)

  predicate Listed(s: State, p: Pipe) {
    p in s.priority && 1 <= s.priority[p] <= |s.slots| && p in s.slots[s.priority[p] - 1].pipes
  }

  /** What the assertions of the list code ask of the callers. */
  predicate Allowed(s: State, op: Op) {
    match op
    case Add(p, priority) => p !in s.priority && 1 <= priority <= SLOTS
    case Rm(p) => p in s.priority
    case Activate(p) => p in s.priority && !Listed(s, p)
    case Advance(_) => s.current > 0
  }

  function WithSlot(s: State, k: nat, slot: Slot): State
    requires k < |s.slots|
  {
    var slots := s.slots[k := slot];
    s.(slots := slots, current := TopFrom(slots, 0))
  }

  ghost function Step(s: State, op: Op): State
    requires Inv(s) && Allowed(s, op)
  {
    match op
    case Add(p, priority) => s.(priority := s.priority[p := priority])
    case Rm(p) =>
      var k := s.priority[p] - 1;
      WithSlot(s, k, SlotRm(s.slots[k], p)).(priority := s.priority - {p})
    case Activate(p) =>
      var k := s.priority[p] - 1;
      WithSlot(s, k, SlotActivate(s.slots[k], p))
    case Advance(release) => WithSlot(s, s.current - 1, SlotAdvance(s.slots[s.current - 1], release))
  }

  lemma WithSlotKeeps(s: State, k: nat, slot: Slot)
    requires Inv(s) && k < SLOTS && SlotOk(slot)
    requires forall p :: p in slot.pipes ==> p in s.priority && s.priority[p] == k + 1
    ensures Inv(WithSlot(s, k, slot))
  {
  }

  lemma Forget(s: State, p: Pipe)
    requires Inv(s) && !Listed(s, p)
    ensures Inv(s.(priority := s.priority - {p}))
  {
    forall k, q | 0 <= k < |s.slots| && q in s.slots[k].pipes ensures q != p {
    }
  }

  lemma SlotRmKeeps(s: State, k: nat, p: Pipe)
    requires Inv(s) && k < SLOTS
    ensures Inv(WithSlot(s, k, SlotRm(s.slots[k], p))) && p !in WithSlot(s, k, SlotRm(s.slots[k], p)).slots[k].pipes
  {
    RmOk(s.slots[k], p);
    WithSlotKeeps(s, k, SlotRm(s.slots[k], p));
  }

  lemma RmKeeps(s: State, p: Pipe)
    requires Inv(s) && p in s.priority
    ensures Inv(Step(s, Rm(p)))
  {
    var k := s.priority[p] - 1;
    SlotRmKeeps(s, k, p);
    Forget(WithSlot(s, k, SlotRm(s.slots[k], p)), p);
  }

  lemma AdvanceKeeps(s: State, release: bool)
    requires Inv(s) && s.current > 0
    ensures Inv(Step(s, Advance(release)))
  {
    var k := s.current - 1;
    AdvanceOk(s.slots[k], release);
    RmOk(s.slots[k], s.slots[k].current.value);
    WithSlotKeeps(s, k, SlotAdvance(s.slots[k], release));
  }

  lemma ActivateKeeps(s: State, p: Pipe)
    requires Inv(s) && Allowed(s, Activate(p))
    ensures Inv(Step(s, Activate(p)))
  {
    var k := s.priority[p] - 1;
    ActivateTurns(s.slots[k], p);
    WithSlotKeeps(s, k, SlotActivate(s.slots[k], p));
  }

  lemma StepKeeps(s: State, op: Op)
    requires Inv(s) && Allowed(s, op)
    ensures Inv(Step(s, op))
  {
    match op {
      case Add(p, priority) =>
      case Rm(p) => RmKeeps(s, p);
      case Activate(p) => ActivateKeeps(s, p);
      case Advance(release) => AdvanceKeeps(s, release);
    }
  }

  /** nn_priolist_getpipe: a pipe of the highest priority that has one, its slot's current pipe. */
  ghost function GetPipe(s: State): Option<Pipe>
    requires Inv(s)
  {
    if s.current == -1 then None else s.slots[s.current - 1].current
  }

  lemma GetPipeIsBest(s: State)
    requires Inv(s)
    ensures GetPipe(s) == None <==> forall p :: !Listed(s, p)
    ensures GetPipe(s).Some? ==>
              var c := GetPipe(s).value;
              Listed(s, c) && forall p :: Listed(s, p) ==> s.priority[c] <= s.priority[p]
  {
    if s.current != -1 {
      var c := s.slots[s.current - 1].current.value;
      assert c in s.slots[s.current - 1].pipes;
      assert Listed(s, c);
    }
  }

  /** Which pipes are listed after a call. */
  ghost predicate ListedNext(s: State, op: Op, q: Pipe)
    requires Inv(s) && Allowed(s, op)
  {
    match op
    case Add(_, _) => Listed(s, q)
    case Rm(p) => Listed(s, q) && q != p
    case Activate(p) => Listed(s, q) || q == p
    case Advance(release) => Listed(s, q) && !(release && GetPipe(s) == Some(q))
  }

  lemma ListedUpdated(s: State, k: nat, slot: Slot, q: Pipe)
    requires Inv(s) && k < SLOTS
    ensures Listed(WithSlot(s, k, slot), q) <==>
            if q in s.priority && s.priority[q] == k + 1 then q in slot.pipes else Listed(s, q)
  {
  }

  lemma ListedAfterRm(s: State, p: Pipe, q: Pipe)
    requires Inv(s) && p in s.priority
    ensures Listed(Step(s, Rm(p)), q) <==> Listed(s, q) && q != p
  {
    var k := s.priority[p] - 1;
    RmOk(s.slots[k], p);
    ListedUpdated(s, k, SlotRm(s.slots[k], p), q);
  }

  lemma ListedAfterAdvance(s: State, release: bool, q: Pipe)
    requires Inv(s) && s.current > 0
    ensures Listed(Step(s, Advance(release)), q) <==> Listed(s, q) && !(release && GetPipe(s) == Some(q))
  {
    var k := s.current - 1;
    RmOk(s.slots[k], s.slots[k].current.value);
    ListedUpdated(s, k, SlotAdvance(s.slots[k], release), q);
  }

  lemma ListedAfter(s: State, op: Op, q: Pipe)
    requires Inv(s) && Allowed(s, op)
    ensures Listed(Step(s, op), q) <==> ListedNext(s, op, q)
  {
    match op {
      case Add(p, priority) =>
      case Rm(p) => ListedAfterRm(s, p, q);
      case Activate(p) =>
        var k := s.priority[p] - 1;
        ListedUpdated(s, k, SlotActivate(s.slots[k], p), q);
      case Advance(release) => ListedAfterAdvance(s, release, q);
    }
  }

  /** A pipe keeps the priority it was added with until it is removed, and calls for one slot leave the others alone. */
  lemma PriorityAfter(s: State, op: Op, q: Pipe)
    requires Inv(s) && Allowed(s, op)
    ensures var r := Step(s, op);
            && (q in r.priority <==> (q in s.priority || (op.Add? && op.pipe == q)) && op != Rm(q))
            && (q in r.priority ==>
                  r.priority[q] == if op.Add? && op.pipe == q then op.priority else s.priority[q])
            && |r.slots| == SLOTS
            && (op.Add? ==> r.slots == s.slots && r.current == s.current)
            && forall k :: 0 <= k < SLOTS && k + 1 != SlotOf(s, op) ==> r.slots[k] == s.slots[k]
  {
  }

  /** The priority whose slot a call changes. */
  function SlotOf(s: State, op: Op): int {
    match op
    case Add(_, priority) => priority
    case Rm(p) => if p in s.priority then s.priority[p] else 0
    case Activate(p) => if p in s.priority then s.priority[p] else 0
    case Advance(_) => s.current
  }

  // ------------------------------------------------------------------------------ fairness

  /** How many turns of its slot a pipe has to wait for. */
  ghost function Position(s: Slot, p: Pipe): (i: nat)
    requires SlotOk(s) && p in s.pipes
    ensures i < |Turns(s)| && Turns(s)[i] == p
  {
    TurnsDistinct(s);
    Index(Turns(s), p)
  }

  lemma PositionIs(s: Slot, p: Pipe, i: nat)
    requires SlotOk(s) && i < |Turns(s)| && Turns(s)[i] == p
    ensures p in s.pipes && Position(s, p) == i
  {
    TurnsDistinct(s);
  }

  lemma RmPosition(s: Slot, p: Pipe, q: Pipe)
    requires SlotOk(s) && p in s.pipes && p != q
    ensures SlotOk(SlotRm(s, q)) && p in SlotRm(s, q).pipes
    ensures Position(SlotRm(s, q), p) <= Position(s, p)
    ensures s.current == Some(q) ==> Position(SlotRm(s, q), p) == Position(s, p) - 1
  {
    RmOk(s, q);
    if q in s.pipes {
      RmTurns(s, q);
      var j, i := Position(s, q), Position(s, p);
      PositionIs(SlotRm(s, q), p, if i < j then i else i - 1);
      if s.current == Some(q) { PositionIs(s, q, 0); }
    }
  }

  lemma AdvancePosition(s: Slot, p: Pipe, release: bool)
    requires SlotOk(s) && p in s.pipes && s.current != Some(p)
    ensures SlotOk(SlotAdvance(s, release)) && p in SlotAdvance(s, release).pipes
    ensures Position(SlotAdvance(s, release), p) == Position(s, p) - 1
  {
    if release {
      RmPosition(s, p, s.current.value);
    } else {
      AdvanceTurns(s);
      PositionIs(SlotAdvance(s, release), p, Position(s, p) - 1);
    }
  }

  lemma ActivatePosition(s: Slot, p: Pipe, q: Pipe)
    requires SlotOk(s) && p in s.pipes && q !in s.pipes
    ensures SlotOk(SlotActivate(s, q)) && p in SlotActivate(s, q).pipes
    ensures Position(SlotActivate(s, q), p) <= Position(s, p) + 1
  {
    ActivateTurns(s, q);
    TurnsDistinct(s);
    var i := Position(s, p);
    PositionIs(SlotActivate(s, q), p, if i < |s.pipes| - Wrapped(s) then i else i + 1);
  }

  ghost function Distance(s: State, p: Pipe): nat
    requires Inv(s) && Listed(s, p)
  {
    Position(s.slots[s.priority[p] - 1], p)
  }

  predicate Serves(s: State, op: Op, p: Pipe) {
    op.Advance? && 1 <= s.current <= |s.slots| && s.slots[s.current - 1].current == Some(p)
  }

  /** The call gives a turn to somebody in the slot of priority `k`. */
  function TurnIn(s: State, op: Op, k: int): nat {
    if op.Advance? && s.current == k then 1 else 0
  }

  function ActivationIn(s: State, op: Op, k: int): nat {
    if op.Activate? && op.pipe in s.priority && s.priority[op.pipe] == k then 1 else 0
  }

  /** What a call that neither serves nor removes `p` does to its distance. */
  ghost predicate Closer(s: State, op: Op, p: Pipe)
    requires Inv(s) && Allowed(s, op) && Listed(s, p)
  {
    var (r, k) := (Step(s, op), s.priority[p]);
    && Inv(r) && Listed(r, p) && r.priority[p] == k
    && Distance(r, p) + TurnIn(s, op, k) <= Distance(s, p) + ActivationIn(s, op, k)
  }

  /** Only the changed slot matters. */
  lemma Updated(s: State, r: State, j: nat, slot: Slot, p: Pipe, turn: nat, activation: nat)
    requires Inv(s) && Inv(r) && Listed(s, p) && j < SLOTS && r.slots == s.slots[j := slot]
    requires p in r.priority && r.priority[p] == s.priority[p]
    requires j == s.priority[p] - 1 ==>
               && SlotOk(slot) && p in slot.pipes
               && Position(slot, p) + turn <= Position(s.slots[j], p) + activation
    requires j != s.priority[p] - 1 ==> turn == 0
    ensures Listed(r, p) && Distance(r, p) + turn <= Distance(s, p) + activation
  {
    assert r.slots[s.priority[p] - 1] == if j == s.priority[p] - 1 then slot else s.slots[s.priority[p] - 1];
  }

  lemma CloserRm(s: State, q: Pipe, p: Pipe)
    requires Inv(s) && Allowed(s, Rm(q)) && Listed(s, p) && q != p
    ensures Closer(s, Rm(q), p)
  {
    RmKeeps(s, q);
    var j := s.priority[q] - 1;
    if p in s.slots[j].pipes { RmPosition(s.slots[j], p, q); }
    Updated(s, Step(s, Rm(q)), j, SlotRm(s.slots[j], q), p, 0, 0);
  }

  lemma ActivateCloser(s: State, q: Pipe, p: Pipe, activation: nat)
    requires Inv(s) && Allowed(s, Activate(q)) && Listed(s, p)
    requires s.priority[q] == s.priority[p] ==> activation == 1
    ensures var r := Step(s, Activate(q));
            Inv(r) && Listed(r, p) && Distance(r, p) <= Distance(s, p) + activation
  {
    ActivateKeeps(s, q);
    var j := s.priority[q] - 1;
    if s.priority[q] == s.priority[p] { ActivatePosition(s.slots[j], p, q); }
    Updated(s, Step(s, Activate(q)), j, SlotActivate(s.slots[j], q), p, 0, activation);
  }

  lemma CloserActivate(s: State, q: Pipe, p: Pipe)
    requires Inv(s) && Allowed(s, Activate(q)) && Listed(s, p)
    ensures Closer(s, Activate(q), p)
  {
    ActivateCloser(s, q, p, ActivationIn(s, Activate(q), s.priority[p]));
  }

  lemma CloserAdvance(s: State, release: bool, p: Pipe)
    requires Inv(s) && s.current > 0 && Listed(s, p) && !Serves(s, Advance(release), p)
    ensures Closer(s, Advance(release), p)
  {
    AdvanceKeeps(s, release);
    var j := s.current - 1;
    if p in s.slots[j].pipes { AdvancePosition(s.slots[j], p, release); }
    Updated(s, Step(s, Advance(release)), j, SlotAdvance(s.slots[j], release), p,
            TurnIn(s, Advance(release), s.priority[p]), 0);
  }

  lemma CloserAdd(s: State, q: Pipe, priority: int, p: Pipe)
    requires Inv(s) && Allowed(s, Add(q, priority)) && Listed(s, p)
    ensures Closer(s, Add(q, priority), p)
  {
    Updated(s, Step(s, Add(q, priority)), 0, s.slots[0], p, 0, 0);
  }

  /** A call that neither serves nor removes a pipe brings it closer, by one for a turn of its slot. */
  lemma FairStep(s: State, op: Op, p: Pipe)
    requires Inv(s) && Allowed(s, op) && Listed(s, p)
    requires op != Rm(p) && !Serves(s, op, p)
    ensures Closer(s, op, p)
  {
    match op {
      case Add(q, priority) => CloserAdd(s, q, priority, p);
      case Rm(q) => CloserRm(s, q, p);
      case Activate(q) => CloserActivate(s, q, p);
      case Advance(release) => CloserAdvance(s, release, p);
    }
  }

  /** A run; calls that the assertions of the code forbid are left out. */
  ghost function Run(s: State, ops: seq<Op>): State
    requires Inv(s)
    ensures Inv(Run(s, ops))
    decreases |ops|
  {
    if ops == [] then s
    else if !Allowed(s, ops[0]) then Run(s, ops[1..])
    else
      StepKeeps(s, ops[0]);
      Run(Step(s, ops[0]), ops[1..])
  }

  lemma StartInv()
    ensures Inv(Start())
  {
    TopIs(Start().slots, 0, -1);
  }

  lemma {:induction false} RunLast(s: State, ops: seq<Op>, last: Op)
    requires Inv(s)
    ensures Run(s, ops + [last]) ==
            if Allowed(Run(s, ops), last) then Step(Run(s, ops), last) else Run(s, ops)
    decreases |ops|
  {
    if ops == [] {
      assert [last][1..] == [];
      if Allowed(s, last) { StepKeeps(s, last); }
    } else {
      assert (ops + [last])[1..] == ops[1..] + [last];
      if Allowed(s, ops[0]) {
        StepKeeps(s, ops[0]);
        RunLast(Step(s, ops[0]), ops[1..], last);
      } else {
        RunLast(s, ops[1..], last);
      }
    }
  }

  /** The call in place `i` of a run is made. */
  ghost predicate Made(s: State, ops: seq<Op>, i: nat)
    requires Inv(s) && i < |ops|
  {
    Allowed(Run(s, ops[..i]), ops[i])
  }

  /** The pipe was added with this priority in place `i`, and not removed since. */
  ghost predicate AddedAt(s: State, ops: seq<Op>, i: nat, p: Pipe, k: int)
    requires Inv(s)
  {
    i < |ops| && ops[i] == Add(p, k) && Made(s, ops, i)
    && forall j :: i < j < |ops| && ops[j] == Rm(p) ==> !Made(s, ops, j)
  }

  ghost predicate AddedWith(s: State, ops: seq<Op>, p: Pipe, k: int)
    requires Inv(s)
  {
    exists i: nat :: AddedAt(s, ops, i, p, k)
  }

  lemma MadeBefore(s: State, ops: seq<Op>, last: Op, i: nat)
    requires Inv(s) && i <= |ops|
    ensures Made(s, ops + [last], i) <==> if i < |ops| then Made(s, ops, i) else Allowed(Run(s, ops), last)
  {
    assert (ops + [last])[..i] == ops[..i];
    if i == |ops| { assert ops[..i] == ops; }
  }

  lemma AddedBefore(s: State, ops: seq<Op>, last: Op, i: nat, p: Pipe, k: int)
    requires Inv(s) && i < |ops|
    ensures AddedAt(s, ops + [last], i, p, k) <==>
              AddedAt(s, ops, i, p, k) && !(last == Rm(p) && Allowed(Run(s, ops), last))
  {
    var all := ops + [last];
    forall j: nat | j <= |ops|
      ensures Made(s, all, j) <==> if j < |ops| then Made(s, ops, j) else Allowed(Run(s, ops), last)
    {
      MadeBefore(s, ops, last, j);
    }
    assert forall j :: 0 <= j < |ops| ==> all[j] == ops[j];
    assert all[|ops|] == last;
    if AddedAt(s, all, i, p, k) {
      forall j | i < j < |ops| && ops[j] == Rm(p) ensures !Made(s, ops, j) { assert all[j] == Rm(p); }
    }
  }

  lemma AddedLast(s: State, ops: seq<Op>, last: Op, p: Pipe, k: int)
    requires Inv(s)
    ensures AddedWith(s, ops + [last], p, k) <==>
              || (last == Add(p, k) && Allowed(Run(s, ops), last))
              || (AddedWith(s, ops, p, k) && !(last == Rm(p) && Allowed(Run(s, ops), last)))
  {
    var all, n := ops + [last], |ops|;
    MadeBefore(s, ops, last, n);
    assert AddedAt(s, all, n, p, k) <==> last == Add(p, k) && Allowed(Run(s, ops), last);
    forall i: nat | i < n
      ensures AddedAt(s, all, i, p, k) <==>
                AddedAt(s, ops, i, p, k) && !(last == Rm(p) && Allowed(Run(s, ops), last))
    {
      AddedBefore(s, ops, last, i, p, k);
    }
  }

  /** Over every run: a pipe has the priority of its last addition, unless it has been removed since. */
  lemma {:induction false} PriorityGiven(ops: seq<Op>, p: Pipe, k: int)
    ensures Inv(Start())
    ensures var r := Run(Start(), ops);
            p in r.priority && r.priority[p] == k <==> AddedWith(Start(), ops, p, k)
    decreases |ops|
  {
    StartInv();
    if ops != [] {
      var init, last := ops[..|ops| - 1], ops[|ops| - 1];
      assert ops == init + [last];
      PriorityGiven(init, p, k);
      RunLast(Start(), init, last);
      AddedLast(Start(), init, last, p, k);
      var r := Run(Start(), init);
      if Allowed(r, last) { PriorityAfter(r, last, p); }
      GivenOnce(init, p, k, last);
    }
  }

  /** An addition that is made finds no earlier priority. */
  lemma GivenOnce(ops: seq<Op>, p: Pipe, k: int, last: Op)
    requires Inv(Start())
    requires var r := Run(Start(), ops); p in r.priority && r.priority[p] == k <==> AddedWith(Start(), ops, p, k)
    ensures Allowed(Run(Start(), ops), last) && last.Add? && last.pipe == p ==> !AddedWith(Start(), ops, p, k)
  {
  }

  /** After every run the pipe offered has the best of the priorities that the callers gave to the listed pipes. */
  lemma BestAsGiven(ops: seq<Op>)
    ensures Inv(Start())
    ensures var r := Run(Start(), ops);
            GetPipe(r).Some? ==>
              exists k :: AddedWith(Start(), ops, GetPipe(r).value, k)
                          && forall q, l :: Listed(r, q) && AddedWith(Start(), ops, q, l) ==> k <= l
  {
    StartInv();
    var r := Run(Start(), ops);
    GetPipeIsBest(r);
    if GetPipe(r).Some? {
      var c := GetPipe(r).value;
      PriorityGiven(ops, c, r.priority[c]);
      forall q, l | Listed(r, q) && AddedWith(Start(), ops, q, l) ensures r.priority[c] <= l {
        PriorityGiven(ops, q, l);
      }
    }
  }

  /** The run gives `p` a turn, or removes it. */
  ghost predicate Reaches(s: State, ops: seq<Op>, p: Pipe)
    requires Inv(s)
    decreases |ops|
  {
    if ops == [] then false
    else if !Allowed(s, ops[0]) then Reaches(s, ops[1..], p)
    else
      StepKeeps(s, ops[0]);
      ops[0] == Rm(p) || Serves(s, ops[0], p) || Reaches(Step(s, ops[0]), ops[1..], p)
  }

  /** How often a run gives a turn in the slot of priority `k`. */
  ghost function TurnCount(s: State, ops: seq<Op>, k: int): nat
    requires Inv(s)
    decreases |ops|
  {
    if ops == [] then 0
    else if !Allowed(s, ops[0]) then TurnCount(s, ops[1..], k)
    else
      StepKeeps(s, ops[0]);
      TurnIn(s, ops[0], k) + TurnCount(Step(s, ops[0]), ops[1..], k)
  }

  /** How often a run activates a pipe in the slot of priority `k`. */
  ghost function ActivationCount(s: State, ops: seq<Op>, k: int): nat
    requires Inv(s)
    decreases |ops|
  {
    if ops == [] then 0
    else if !Allowed(s, ops[0]) then ActivationCount(s, ops[1..], k)
    else
      StepKeeps(s, ops[0]);
      ActivationIn(s, ops[0], k) + ActivationCount(Step(s, ops[0]), ops[1..], k)
  }

  /**
   * A listed pipe gets its turn, or is removed, before its slot has given out more turns than the pipe's
   * distance and the activations in the slot since then.
   */
  lemma {:induction false} Fair(s: State, ops: seq<Op>, p: Pipe)
    requires Inv(s) && Listed(s, p)
    requires TurnCount(s, ops, s.priority[p]) > Distance(s, p) + ActivationCount(s, ops, s.priority[p])
    ensures Reaches(s, ops, p)
    decreases |ops|
  {
    if ops != [] {
      if !Allowed(s, ops[0]) {
        Fair(s, ops[1..], p);
      } else if ops[0] != Rm(p) && !Serves(s, ops[0], p) {
        FairStep(s, ops[0], p);
        Fair(Step(s, ops[0]), ops[1..], p);
      }
    }
  }

  /** `n` turns in a row, nobody released. */
  ghost function Rounds(s: State, n: nat): State
    requires Inv(s) && s.current > 0
    ensures Inv(Rounds(s, n)) && Rounds(s, n).current == s.current
    decreases n
  {
    if n == 0 then s
    else
      AdvanceInPlace(s);
      Rounds(Step(s, Advance(false)), n - 1)
  }

  lemma AdvanceInPlace(s: State)
    requires Inv(s) && s.current > 0
    ensures var (r, k) := (Step(s, Advance(false)), s.current - 1);
            Inv(r) && r.current == s.current && r == Put(s, k, SlotAdvance(s.slots[k], false))
  {
    AdvanceKeeps(s, false);
    var k := s.current - 1;
    TopIs(s.slots[k := SlotAdvance(s.slots[k], false)], 0, s.current);
  }

  /** `n` turns in a slot. */
  ghost function SlotRounds(s: Slot, n: nat): (r: Slot)
    requires SlotOk(s) && s.pipes != []
    ensures SlotOk(r) && r.pipes == s.pipes
    decreases n
  {
    if n == 0 then s
    else
      AdvanceOk(s, false);
      SlotRounds(SlotAdvance(s, false), n - 1)
  }

  /** `n` places further on in a circle of `len`. */
  function Onward(c: nat, n: nat, len: nat): nat
    requires c < len && n <= len
    ensures Onward(c, n, len) < len
  {
    if c + n < len then c + n else c + n - len
  }

  lemma {:induction false} SlotRoundsAt(s: Slot, c: nat, n: nat)
    requires SlotOk(s) && c < |s.pipes| && s.current == Some(s.pipes[c]) && n <= |s.pipes|
    ensures SlotRounds(s, n) == Slot(s.pipes, Some(s.pipes[Onward(c, n, |s.pipes|)]))
    decreases n
  {
    if n > 0 {
      assert Index(s.pipes, s.pipes[c]) == c;
      AdvanceOk(s, false);
      SlotRoundsAt(SlotAdvance(s, false), Onward(c, 1, |s.pipes|), n - 1);
    }
  }

  /** A state that differs in one slot. */
  function Put(s: State, k: nat, slot: Slot): State
    requires k < |s.slots|
  {
    s.(slots := s.slots[k := slot])
  }

  lemma PutTwice(s: State, k: nat, a: Slot, b: Slot)
    requires k < |s.slots|
    ensures Put(Put(s, k, a), k, b) == Put(s, k, b) && Put(s, k, s.slots[k]) == s && Put(s, k, a).slots[k] == a
  {
  }

  lemma {:induction false} RoundsAre(s: State, n: nat)
    requires Inv(s) && s.current > 0
    ensures Rounds(s, n) == Put(s, s.current - 1, SlotRounds(s.slots[s.current - 1], n))
    decreases n
  {
    var k := s.current - 1;
    PutTwice(s, k, SlotAdvance(s.slots[k], false), SlotRounds(s.slots[k], n));
    if n > 0 {
      AdvanceInPlace(s);
      RoundsAre(Step(s, Advance(false)), n - 1);
    }
  }

  lemma TurnAt(s: Slot, n: nat)
    requires SlotOk(s) && n < |Turns(s)|
    ensures s.pipes != [] && |Turns(s)| == |s.pipes|
    ensures Turns(s)[n] == s.pipes[Onward(Index(s.pipes, s.current.value), n, |s.pipes|)]
  {
    TurnsDistinct(s);
  }

  lemma RoundsVisit(s: State, n: nat)
    requires Inv(s) && s.current > 0 && n < |Turns(s.slots[s.current - 1])|
    ensures GetPipe(Rounds(s, n)) == Some(Turns(s.slots[s.current - 1])[n])
  {
    var k := s.current - 1;
    var slot := s.slots[k];
    TurnAt(slot, n);
    SlotRoundsAt(slot, Index(slot.pipes, slot.current.value), n);
    RoundsAre(s, n);
    PutTwice(s, k, SlotRounds(slot, n), slot);
  }

  lemma RoundsBack(s: State)
    requires Inv(s) && s.current > 0
    ensures Rounds(s, |s.slots[s.current - 1].pipes|) == s
  {
    var k := s.current - 1;
    var slot := s.slots[k];
    RoundsAre(s, |slot.pipes|);
    SlotRoundsAt(slot, Index(slot.pipes, slot.current.value), |slot.pipes|);
    PutTwice(s, k, slot, slot);
  }

  /** Turns in a row, one for each pipe of the slot, visit each pipe once and lead back to where they began. */
  lemma FullRound(s: State)
    requires Inv(s) && s.current > 0
    ensures var turns := Turns(s.slots[s.current - 1]);
            && Distinct(turns) && (forall p :: p in turns <==> p in s.slots[s.current - 1].pipes)
            && (forall n: nat :: n < |turns| ==> GetPipe(Rounds(s, n)) == Some(turns[n]))
            && Rounds(s, |turns|) == s
  {
    var turns := Turns(s.slots[s.current - 1]);
    TurnsDistinct(s.slots[s.current - 1]);
    forall n: nat | n < |turns| ensures GetPipe(Rounds(s, n)) == Some(turns[n]) {
      RoundsVisit(s, n);
    }
    RoundsBack(s);
  }

  // ----------------------------------------------------------------------------- in place

  class PriorityList {
    const slots: array<Slot>
    var current: int
    /** The priority stored with each pipe that was added. */
    var priority: map<Pipe, int>

    ghost function Value(): State
      reads this, slots
    {
      State(slots[..], current, priority)
    }

    /** nn_priolist_init. */
    constructor ()
      ensures Value() == Start() && Inv(Value()) && fresh(slots)
    {
      slots := new Slot[SLOTS](_ => Slot([], None));
      current, priority := -1, map[];
      new;
      StartInv();
      assert slots[..] == Start().slots;
    }

    /** nn_priolist_add. */
    method Add(p: Pipe, priority: int)
      requires Inv(Value()) && Allowed(Value(), Op.Add(p, priority))
      modifies this
      ensures Inv(Value()) && Value() == Step(old(Value()), Op.Add(p, priority))
      ensures this.priority == old(this.priority)[p := priority]
      ensures slots[..] == old(slots[..]) && current == old(current)
    {
      StepKeeps(Value(), Op.Add(p, priority));
      this.priority := this.priority[p := priority];
    }

    /** From the current slot on to the first one that is not empty. */
    method FindTop()
      requires slots.Length == SLOTS && 1 <= current <= SLOTS
      requires EmptyBefore(slots[..], current)
      modifies `current
      ensures current == TopFrom(slots[..], 0)
    {
      while |slots[current - 1].pipes| == 0
        invariant 1 <= current <= SLOTS
        invariant EmptyBefore(slots[..], current)
        decreases SLOTS - current
      {
        current := current + 1;
        if current > SLOTS {
          current := -1;
          TopIs(slots[..], 0, -1);
          return;
        }
      }
      TopIs(slots[..], 0, current);
    }

    /** nn_list_erase, of the pipe at place `i`: the one after it. */
    method EraseAt(k: nat, i: nat) returns (next: Option<Pipe>)
      requires k < slots.Length && i < |slots[k].pipes|
      modifies slots
      ensures slots[..] == old(slots[..])[k := old(slots[k]).(pipes := Without(old(slots[k]).pipes, i))]
      ensures next == if i < |slots[k].pipes| then Some(slots[k].pipes[i]) else None
    {
      var ps := slots[k].pipes;
      ps := ps[..i] + ps[i + 1..];
      slots[k] := slots[k].(pipes := ps);
      next := if i < |ps| then Some(ps[i]) else None;
    }

    /** The place of a pipe in its slot's list. */
    method Find(k: nat, p: Pipe) returns (i: nat)
      requires k < slots.Length && p in slots[k].pipes && Distinct(slots[k].pipes)
      ensures i < |slots[k].pipes| && i == Index(slots[k].pipes, p)
    {
      i := 0;
      while slots[k].pipes[i] != p
        invariant i < |slots[k].pipes| && p !in slots[k].pipes[..i]
        decreases |slots[k].pipes| - i
      {
        i := i + 1;
      }
    }

    /** Takes the pipe at place `i` out of its slot and lets the current pipe, if it was that, be the next. */
    method TakeOut(k: nat, i: nat)
      requires k < slots.Length && SlotOk(slots[k]) && i < |slots[k].pipes|
      modifies slots
      ensures slots[..] == old(slots[..])[k := SlotRm(old(slots[k]), old(slots[k].pipes[i]))]
    {
      var slot := slots[k];
      var p := slot.pipes[i];
      assert Index(slot.pipes, p) == i;
      var it := EraseAt(k, i);
      if slot.current == Some(p) {
        if it.None? && |slots[k].pipes| > 0 { it := Some(slots[k].pipes[0]); }
        slots[k] := slots[k].(current := it);
      }
    }

    /** nn_priolist_rm. */
    method Rm(p: Pipe)
      requires Inv(Value()) && Allowed(Value(), Op.Rm(p))
      modifies this, slots
      ensures Inv(Value()) && Value() == Step(old(Value()), Op.Rm(p))
      ensures priority == old(priority) - {p}
    {
      ghost var s := Value();
      RmKeeps(s, p);
      var k := priority[p] - 1;
      priority := priority - {p};
      if p !in slots[k].pipes {
        assert s.slots[k := s.slots[k]] == s.slots;
        return;
      }
      var i := Find(k, p);
      TakeOut(k, i);
      SameTop(s, k, SlotRm(s.slots[k], p));
      if current == k + 1 { FindTop(); }
    }

    /** nn_priolist_activate. */
    method Activate(p: Pipe)
      requires Inv(Value()) && Allowed(Value(), Op.Activate(p))
      modifies this, slots
      ensures Inv(Value()) && Value() == Step(old(Value()), Op.Activate(p))
      ensures priority == old(priority)
    {
      ghost var s := Value();
      ActivateKeeps(s, p);
      var k := priority[p] - 1;
      NewTop(s, k, SlotActivate(s.slots[k], p));
      if |slots[k].pipes| > 0 {
        slots[k] := slots[k].(pipes := slots[k].pipes + [p]);
        return;
      }
      slots[k] := Slot(slots[k].pipes + [p], Some(p));
      if current == -1 {
        current := k + 1;
      } else if current > k + 1 {
        current := k + 1;
      }
    }

    /** nn_priolist_getpipe. */
    method Get() returns (p: Option<Pipe>)
      requires Inv(Value())
      ensures p == GetPipe(Value())
    {
      if current == -1 { return None; }
      p := slots[current - 1].current;
    }

    /** Moves a slot's current pointer to the next pipe. */
    method NextInSlot(k: nat, release: bool)
      requires k < slots.Length && SlotOk(slots[k]) && slots[k].pipes != []
      modifies slots
      ensures slots[..] == old(slots[..])[k := SlotAdvance(old(slots[k]), release)]
    {
      var i := Find(k, slots[k].current.value);
      if release {
        TakeOut(k, i);
      } else {
        var it := if i + 1 < |slots[k].pipes| then Some(slots[k].pipes[i + 1]) else None;
        if it.None? { it := Some(slots[k].pipes[0]); }
        slots[k] := slots[k].(current := it);
      }
    }

    /** nn_priolist_advance. */
    method Advance(release: bool)
      requires Inv(Value()) && Allowed(Value(), Op.Advance(release))
      modifies this, slots
      ensures Inv(Value()) && Value() == Step(old(Value()), Op.Advance(release))
      ensures priority == old(priority)
    {
      ghost var s := Value();
      AdvanceKeeps(s, release);
      SameTop(s, current - 1, SlotAdvance(s.slots[current - 1], release));
      NextInSlot(current - 1, release);
      FindTop();
    }

    /**
     * nn_fq_recv and nn_lb_send, with what the pipe said about releasing it: the best pipe's turn, or
     * nothing when there is none.
     */
    method Turn(release: bool) returns (p: Option<Pipe>)
      requires Inv(Value())
      modifies this, slots
      ensures Inv(Value()) && p == GetPipe(old(Value()))
      ensures p.None? ==> Value() == old(Value())
      ensures p.Some? ==> old(Value()).current > 0 && Value() == Step(old(Value()), Op.Advance(release))
    {
      p := Get();
      if p.Some? { Advance(release); }
    }
  }

  /** Slots before the current one stay empty when another slot changes. */
  lemma SameTop(s: State, k: nat, slot: Slot)
    requires Inv(s) && k < SLOTS && s.slots[k].pipes != []
    ensures s.current > 0 && s.current - 1 <= k
    ensures EmptyBefore(s.slots[k := slot], s.current)
    ensures s.current - 1 < k ==> TopFrom(s.slots[k := slot], 0) == s.current
  {
    if s.current - 1 < k { TopIs(s.slots[k := slot], 0, s.current); }
  }

  /** A slot that gets a pipe becomes the current one if there was none of higher priority. */
  lemma NewTop(s: State, k: nat, slot: Slot)
    requires Inv(s) && k < SLOTS && slot.pipes != []
    ensures TopFrom(s.slots[k := slot], 0) == if s.current == -1 || s.current > k + 1 then k + 1 else s.current
  {
    TopIs(s.slots[k := slot], 0, if s.current == -1 || s.current > k + 1 then k + 1 else s.current);
  }
}
