/**
 * The green-thread scheduler on one kernel thread. A context switch changes which thread is current; what
 * the current thread does up to its next call is its own business.
 */
module Chloros {
  datatype Status = Waiting | Ready | Running | Zombie

  /** Where a thread goes on when it is switched to: in its function, after a Yield, or in the loop of Wait. */
  datatype Position = Entry | FromYield | FromWait

  datatype Thread = Thread(id: nat, status: Status, initial: bool, position: Position)

  datatype System = System(queue: seq<Thread>, current: Thread, initialId: nat, nextId: nat)

  /** What the thread that now runs its own code sees: its start, the result of its Yield, or the end of its Wait. */
  datatype Outcome = Entered | Yielded(switched: bool) | Waited

  datatype Result = Abort | Goes(sys: System, outcome: Outcome)

  function Start(id: nat): System {
    System([], Thread(id, Waiting, true, FromYield), id, id + 1)
  }

  // -------------------------------------------------------------------------------- Yield

  predicate Eligible(s: System, t: Thread, onlyReady: bool) {
    && (t.status.Ready? || (t.status.Waiting? && !onlyReady))
    && (s.current.id != s.initialId || !t.initial)
  }

  /** The first thread that may run next, or the length of the queue. */
  ghost function Pick(s: System, onlyReady: bool): (i: nat)
    ensures i <= |s.queue|
    ensures i < |s.queue| ==> Eligible(s, s.queue[i], onlyReady)
    ensures forall j :: 0 <= j < i ==> !Eligible(s, s.queue[j], onlyReady)
  {
    PickExists(s, onlyReady, 0);
    var i :| Chosen(s, onlyReady, i);
    i
  }

  ghost predicate Chosen(s: System, onlyReady: bool, i: nat) {
    && i <= |s.queue|
    && (i < |s.queue| ==> Eligible(s, s.queue[i], onlyReady))
    && (forall j :: 0 <= j < i ==> !Eligible(s, s.queue[j], onlyReady))
  }

  lemma {:induction false} PickExists(s: System, onlyReady: bool, i: nat)
    requires i <= |s.queue|
    requires forall j :: 0 <= j < i ==> !Eligible(s, s.queue[j], onlyReady)
    ensures exists k: nat :: Chosen(s, onlyReady, k)
    decreases |s.queue| - i
  {
    if i < |s.queue| && !Eligible(s, s.queue[i], onlyReady) {
      PickExists(s, onlyReady, i + 1);
    } else {
      assert Chosen(s, onlyReady, i);
    }
  }

  /** The current thread goes to the back of the queue and the thread at `i` becomes current. */
  function SwitchTo(s: System, i: nat, position: Position): System
    requires i < |s.queue|
  {
    var left := if s.current.status.Running? then Ready else s.current.status;
    s.(queue := s.queue[..i] + s.queue[i + 1..] + [s.current.(status := left, position := position)],
       current := s.queue[i].(status := Running))
  }

  /** Yield up to the context switch: the new state, and whether there was a switch. */
  ghost function Leave(s: System, onlyReady: bool, position: Position): (System, bool) {
    var i := Pick(s, onlyReady);
    if i == |s.queue| then (s, false) else (SwitchTo(s, i, position), true)
  }

  /** The threads that are not zombies, in order. */
  function Collect(ts: seq<Thread>): seq<Thread> {
    if ts == [] then []
    else Collect(ts[..|ts| - 1]) + if ts[|ts| - 1].status.Zombie? then [] else [ts[|ts| - 1]]
  }

  function ReadyCount(ts: seq<Thread>): nat {
    if ts == [] then 0 else ReadyCount(ts[..|ts| - 1]) + if ts[|ts| - 1].status.Ready? then 1 else 0
  }

  lemma {:induction false} ReadyConcat(a: seq<Thread>, b: seq<Thread>)
    ensures ReadyCount(a + b) == ReadyCount(a) + ReadyCount(b)
    decreases |b|
  {
    if b == [] {
      assert a + b == a;
    } else {
      assert (a + b)[..|a + b| - 1] == a + b[..|b| - 1];
      ReadyConcat(a, b[..|b| - 1]);
    }
  }

  lemma {:induction false} ReadyCollect(ts: seq<Thread>)
    ensures ReadyCount(Collect(ts)) == ReadyCount(ts)
    decreases |ts|
  {
    if ts != [] {
      ReadyCollect(ts[..|ts| - 1]);
      var last := if ts[|ts| - 1].status.Zombie? then [] else [ts[|ts| - 1]];
      ReadyConcat(Collect(ts[..|ts| - 1]), last);
    }
  }

  /** A thread that waits and switches to a ready one leaves fewer ready threads behind. */
  lemma LeaveFewer(s: System)
    requires s.current.status.Waiting?
    ensures var (r, ok) := Leave(s, true, FromWait);
            ok ==> ReadyCount(r.queue) < ReadyCount(s.queue)
  {
    var i := Pick(s, true);
    if i < |s.queue| {
      var me := [s.current.(position := FromWait)];
      var a, b := s.queue[..i], s.queue[i + 1..];
      assert s.queue == a + ([s.queue[i]] + b);
      ReadyConcat(a, [s.queue[i]] + b);
      ReadyConcat([s.queue[i]], b);
      ReadyConcat(a, b);
      ReadyConcat(a + b, me);
      assert [s.queue[i]][..0] == [] && me[..0] == [];
    }
  }

  /** The loop of Wait from its test: yield to ready threads for as long as there are any. */
  ghost function WaitLoop(s: System): Result
    requires s.current.status.Waiting?
    decreases ReadyCount(s.queue), 0
  {
    var (r, ok) := Leave(s, true, FromWait);
    LeaveFewer(s);
    if ok then Land(r) else Goes(s.(current := s.current.(position := FromYield)), Waited)
  }

  /** What runs after the context switch until a thread is back in its own code. */
  ghost function Land(s: System): Result
    decreases ReadyCount(s.queue), 1
  {
    match s.current.position
    case Entry => Goes(s, Entered)
    case FromYield => Goes(s.(queue := Collect(s.queue)), Yielded(true))
    case FromWait =>
      ReadyCollect(s.queue);
      WaitLoop(s.(queue := Collect(s.queue), current := s.current.(status := Waiting)))
  }

  // --------------------------------------------------------------------------------- calls

  datatype Op = Spawn | Yield(onlyReady: bool) | Wait | Exit

  ghost function Step(s: System, op: Op): Result {
    match op
    case Spawn =>
      var t := Thread(s.nextId, Ready, false, Entry);
      var (r, ok) := Leave(s.(queue := [t] + s.queue, nextId := s.nextId + 1), true, FromYield);
      if ok then Land(r) else Goes(r, Yielded(false))
    case Yield(onlyReady) =>
      var (r, ok) := Leave(s, onlyReady, FromYield);
      if ok then Land(r) else Goes(s, Yielded(false))
    case Wait => WaitLoop(s.(current := s.current.(status := Waiting)))
    case Exit =>
      var (r, ok) := Leave(s.(current := s.current.(status := Zombie)), false, FromYield);
      if ok then Land(r) else Abort
  }

  /** Only a spawned thread returns through ThreadEntry; only the initial thread calls Wait. */
  predicate Allowed(s: System, op: Op) {
    && (op.Exit? ==> !s.current.initial)
    && (op.Wait? ==> s.current.initial)
  }

  // ----------------------------------------------------------------------------- invariant

  /** Every thread, the current one first, in the order in which they run. */
  function Ring(s: System): seq<Thread> { [s.current] + s.queue }

  ghost predicate DistinctIds(ts: seq<Thread>) {
    forall i, j :: 0 <= i < j < |ts| ==> ts[i].id != ts[j].id
  }

  ghost function Ids(ts: seq<Thread>): set<nat> {
    set i | 0 <= i < |ts| :: ts[i].id
  }

  /** A thread at rest in the queue: only the initial one may be waiting, and there are no zombies. */
  predicate Resting(t: Thread) {
    if t.initial then (t.status.Ready? && t.position.FromYield?) || (t.status.Waiting? && !t.position.Entry?)
    else t.status.Ready? && t.position.FromYield?
  }

  ghost predicate AllResting(ts: seq<Thread>) {
    forall i :: 0 <= i < |ts| ==> Resting(ts[i])
  }

  ghost predicate AllNamed(ts: seq<Thread>, initialId: nat, nextId: nat) {
    forall i :: 0 <= i < |ts| ==> ts[i].id < nextId && (ts[i].initial <==> ts[i].id == initialId)
  }

  /** Each thread has one owner: a place in the queue, or the running slot; the initial thread is there. */
  ghost predicate Owned(s: System) {
    && DistinctIds(Ring(s))
    && AllNamed(Ring(s), s.initialId, s.nextId)
    && s.initialId in Ids(Ring(s))
  }

  /** What holds whenever a thread runs its own code. */
  ghost predicate Inv(s: System) {
    && Owned(s)
    && AllResting(s.queue)
    && (s.current.status.Running? || (s.current.initial && s.current.status.Waiting?))
  }

  lemma StartInv(id: nat)
    ensures Inv(Start(id))
  {
    assert Ring(Start(id))[0].id == id;
  }

  lemma InitialExists(s: System)
    requires Owned(s)
    ensures s.current.initial || exists i :: 0 <= i < |s.queue| && s.queue[i].initial
  {
    var i :| 0 <= i < |Ring(s)| && Ring(s)[i].id == s.initialId;
    if i > 0 { assert s.queue[i - 1].initial; }
  }

  // ------------------------------------------------------------------------- closed forms

  function Kept(t: Thread): seq<Thread> { if t.status.Zombie? then [] else [t] }

  lemma CollectAppend(ts: seq<Thread>, t: Thread)
    ensures Collect(ts + [t]) == Collect(ts) + Kept(t)
  {
    assert (ts + [t])[..|ts + [t]| - 1] == ts;
  }

  lemma {:induction false} CollectResting(ts: seq<Thread>)
    requires AllResting(ts)
    ensures Collect(ts) == ts
    decreases |ts|
  {
    if ts != [] {
      CollectResting(ts[..|ts| - 1]);
      assert ts == ts[..|ts| - 1] + [ts[|ts| - 1]];
    }
  }

  /** The front of a resting queue can always be switched to. */
  lemma PickFront(s: System, onlyReady: bool)
    requires s.queue != [] && Resting(s.queue[0])
    requires onlyReady ==> !s.queue[0].initial
    requires s.current.id == s.initialId ==> !s.queue[0].initial
    ensures Pick(s, onlyReady) == 0
  {
    assert Eligible(s, s.queue[0], onlyReady);
  }

  /** Wait returns at once when the queue is empty, and otherwise runs its front. */
  lemma WaitLoopIs(s: System)
    requires s.current.status.Waiting? && s.current.initial && Owned(s) && AllResting(s.queue)
    ensures WaitLoop(s) ==
            if s.queue == [] then Goes(s.(current := s.current.(position := FromYield)), Waited)
            else Goes(SwitchTo(s, 0, FromWait), Yielded(true))
  {
    if s.queue != [] {
      assert Ring(s)[0] == s.current && Ring(s)[1] == s.queue[0];
      PickFront(s, true);
      var r := SwitchTo(s, 0, FromWait);
      assert r.queue == s.queue[1..] + [s.current.(position := FromWait)];
      assert AllResting(r.queue);
      CollectResting(r.queue);
    }
  }

  /** Back from the switch, zombies are gone. */
  lemma LandIs(s: System, rest: seq<Thread>, last: Thread)
    requires s.queue == rest + [last] && AllResting(rest)
    requires !s.current.position.Entry?
    ensures var c := s.(queue := rest + Kept(last));
            Land(s) == if s.current.position.FromYield? then Goes(c, Yielded(true))
                       else WaitLoop(c.(current := c.current.(status := Waiting)))
  {
    CollectAppend(rest, last);
    CollectResting(rest);
  }

  // --------------------------------------------------------------------------- ownership

  /** Where the thread at place `k` of the ring was before the one at `i` of a queue of `n` became current. */
  function Origin(k: nat, i: nat, n: nat): nat
    requires i < n && k <= n
    ensures Origin(k, i, n) <= n
  {
    if k == 0 then i + 1 else if k <= i then k else if k < n then k + 1 else 0
  }

  /** Place by place, a ring after a switch has the threads of the ring before it. */
  ghost predicate Moved(a: seq<Thread>, b: seq<Thread>, i: nat) {
    && i + 1 < |a| == |b|
    && forall k {:trigger b[k]} :: 0 <= k < |b| ==>
         b[k].id == a[Origin(k, i, |a| - 1)].id && b[k].initial == a[Origin(k, i, |a| - 1)].initial
  }

  lemma SwitchMoves(s: System, i: nat, position: Position)
    requires i < |s.queue|
    ensures Moved(Ring(s), Ring(SwitchTo(s, i, position)), i)
  {
    var a, b := Ring(s), Ring(SwitchTo(s, i, position));
    forall k | 0 <= k < |b|
      ensures b[k].id == a[Origin(k, i, |s.queue|)].id && b[k].initial == a[Origin(k, i, |s.queue|)].initial
    {
      if 0 < k <= i { assert b[k] == s.queue[k - 1]; }
      if i < k < |s.queue| { assert b[k] == s.queue[k]; }
    }
  }

  lemma MovedIds(a: seq<Thread>, b: seq<Thread>, i: nat)
    requires Moved(a, b, i)
    ensures Ids(b) == Ids(a)
  {
    forall k | 0 <= k < |a| ensures a[k].id in Ids(b) {
      var n := |a| - 1;
      var m := if k == 0 then n else if k - 1 < i then k else if k - 1 == i then 0 else k - 1;
      assert Origin(m, i, n) == k && b[m].id == a[k].id;
    }
    forall k | 0 <= k < |b| ensures b[k].id in Ids(a) {
    }
  }

  lemma MovedDistinct(a: seq<Thread>, b: seq<Thread>, i: nat)
    requires Moved(a, b, i) && DistinctIds(a)
    ensures DistinctIds(b)
  {
    forall j, k | 0 <= j < k < |b| ensures b[j].id != b[k].id {
      assert Origin(j, i, |a| - 1) != Origin(k, i, |a| - 1);
    }
  }

  /** A switch moves threads about and neither loses nor copies one. */
  lemma SwitchOwned(s: System, i: nat, position: Position)
    requires Owned(s) && i < |s.queue|
    ensures Owned(SwitchTo(s, i, position))
    ensures Ids(Ring(SwitchTo(s, i, position))) == Ids(Ring(s))
  {
    SwitchMoves(s, i, position);
    MovedIds(Ring(s), Ring(SwitchTo(s, i, position)), i);
    MovedDistinct(Ring(s), Ring(SwitchTo(s, i, position)), i);
  }

  /** Dropping the zombie at the end of the queue. */
  lemma DropOwned(s: System, rest: seq<Thread>, last: Thread)
    requires Owned(s) && s.queue == rest + [last] && !last.initial
    ensures Owned(s.(queue := rest)) && Ids(Ring(s.(queue := rest))) == Ids(Ring(s)) - {last.id}
  {
    var a, b := Ring(s), Ring(s.(queue := rest));
    assert a == b + [last];
    assert forall k :: 0 <= k < |b| ==> a[k] == b[k];
    assert a[|b|] == last;
    assert Ids(b) == Ids(a) - {last.id};
  }

  /** Owned does not depend on what a thread is doing. */
  lemma Relabel(s: System, status: Status, position: Position)
    requires Owned(s)
    ensures var r := s.(current := s.current.(status := status, position := position));
            Owned(r) && Ids(Ring(r)) == Ids(Ring(s))
  {
    var r := s.(current := s.current.(status := status, position := position));
    assert forall k :: 0 <= k < |Ring(s)| ==>
                         Ring(r)[k].id == Ring(s)[k].id && Ring(r)[k].initial == Ring(s)[k].initial;
    assert Ids(Ring(r)) == Ids(Ring(s));
  }

  // --------------------------------------------------------------------------- one step

  /** Wait's loop keeps every thread, and ends only when no other thread is left. */
  lemma WaitLoopKeeps(s: System)
    requires s.current.status.Waiting? && s.current.initial && Owned(s) && AllResting(s.queue)
    ensures var r := WaitLoop(s);
            && r.Goes? && Inv(r.sys) && Ids(Ring(r.sys)) == Ids(Ring(s))
            && (r.outcome.Waited? <==> s.queue == []) && |r.sys.queue| == |s.queue|
  {
    WaitLoopIs(s);
    if s.queue == [] {
      Relabel(s, Waiting, FromYield);
    } else {
      SwitchOwned(s, 0, FromWait);
    }
  }

  /** Between the switch and user code: at most the last thread in the queue is a zombie, and it goes. */
  lemma LandKeeps(s: System, rest: seq<Thread>, last: Thread)
    requires s.queue == rest + [last] && AllResting(rest) && Owned(s) && s.current.status.Running?
    requires !s.current.position.Entry? && (s.current.position.FromWait? ==> s.current.initial)
    requires if last.status.Zombie? then !last.initial else Resting(last)
    ensures var r := Land(s);
            && r.Goes? && Inv(r.sys)
            && Ids(Ring(r.sys)) == (if last.status.Zombie? then Ids(Ring(s)) - {last.id} else Ids(Ring(s)))
            && |r.sys.queue| == |rest + Kept(last)|
            && (r.outcome.Waited? <==> s.current.position.FromWait? && r.sys.queue == [])
  {
    LandIs(s, rest, last);
    var c := s.(queue := rest + Kept(last));
    if last.status.Zombie? {
      DropOwned(s, rest, last);
      assert rest + Kept(last) == rest;
    }
    assert AllResting(c.queue);
    if s.current.position.FromWait? {
      Relabel(c, Waiting, FromWait);
      WaitLoopKeeps(c.(current := c.current.(status := Waiting)));
    }
  }

  /** The initial thread is in the loop of Wait. */
  ghost predicate InWait(s: System) {
    exists i :: 0 <= i < |s.queue| && s.queue[i].position.FromWait?
  }

  /** The threads after a call: one more, one less, or the same. */
  ghost function IdsAfter(s: System, op: Op): set<nat> {
    match op
    case Spawn => Ids(Ring(s)) + {s.nextId}
    case Exit => Ids(Ring(s)) - {s.current.id}
    case _ => Ids(Ring(s))
  }

  /**
   * What one call does: the scheduler never runs out of threads, every thread but the exiting one is kept,
   * no zombie is left behind, and Wait returns exactly when no other thread is left.
   */
  ghost predicate Kind(s: System, op: Op, r: Result) {
    && r.Goes? && Inv(r.sys)
    && Ids(Ring(r.sys)) == IdsAfter(s, op)
    && (r.outcome.Waited? <==> (op.Wait? || InWait(s)) && r.sys.queue == [])
  }

  /** Switching away from a thread that is resting or a zombie from then on. */
  lemma SwitchKeeps(s: System, i: nat)
    requires Owned(s) && AllResting(s.queue) && i < |s.queue|
    requires if s.current.status.Zombie? then !s.current.initial
             else s.current.status.Running? || (s.current.initial && s.current.status.Waiting?)
    ensures var r := Land(SwitchTo(s, i, FromYield));
            && r.Goes? && Inv(r.sys)
            && Ids(Ring(r.sys)) == (if s.current.status.Zombie? then Ids(Ring(s)) - {s.current.id} else Ids(Ring(s)))
            && |r.sys.queue| == (if s.current.status.Zombie? then |s.queue| - 1 else |s.queue|)
            && (r.outcome.Waited? <==> s.queue[i].position.FromWait? && r.sys.queue == [])
  {
    var r := SwitchTo(s, i, FromYield);
    SwitchOwned(s, i, FromYield);
    var rest, last := s.queue[..i] + s.queue[i + 1..], r.queue[|s.queue| - 1];
    assert r.queue == rest + [last];
    assert forall j :: 0 <= j < |rest| ==> rest[j] == if j < i then s.queue[j] else s.queue[j + 1];
    LandKeeps(r, rest, last);
  }

  lemma YieldKeeps(s: System, onlyReady: bool)
    requires Inv(s)
    ensures Kind(s, Yield(onlyReady), Step(s, Yield(onlyReady)))
  {
    var i := Pick(s, onlyReady);
    if i < |s.queue| { SwitchKeeps(s, i); }
  }

  /** While the initial thread is current nobody is in the loop of Wait. */
  lemma InitialCurrent(s: System)
    requires Inv(s) && s.current.initial
    ensures !InWait(s)
  {
    forall i | 0 <= i < |s.queue| ensures !s.queue[i].position.FromWait? {
      assert Ring(s)[0] == s.current && Ring(s)[i + 1] == s.queue[i];
    }
  }

  lemma WaitKeeps(s: System)
    requires Inv(s) && s.current.initial
    ensures Kind(s, Wait, Step(s, Wait))
  {
    Relabel(s, Waiting, s.current.position);
    WaitLoopKeeps(s.(current := s.current.(status := Waiting)));
  }

  /** While a spawned thread is current the initial thread is in the queue and can run. */
  lemma SuccessorExists(s: System)
    requires Owned(s) && AllResting(s.queue) && !s.current.initial
    ensures Pick(s, false) < |s.queue|
  {
    InitialExists(s);
    assert Ring(s)[0] == s.current;
    var k :| 0 <= k < |s.queue| && s.queue[k].initial;
    assert Resting(s.queue[k]) && Eligible(s, s.queue[k], false);
  }

  lemma InWaitAlone(s: System)
    requires |s.queue| == 1
    ensures InWait(s) <==> s.queue[0].position.FromWait?
  {
  }

  lemma ExitKeeps(s: System)
    requires Inv(s) && !s.current.initial
    ensures Kind(s, Exit, Step(s, Exit))
  {
    var z := s.(current := s.current.(status := Zombie));
    Relabel(s, Zombie, s.current.position);
    SuccessorExists(z);
    SwitchKeeps(z, Pick(z, false));
    if |s.queue| == 1 { InWaitAlone(s); }
  }

  lemma SpawnOwned(s: System, t: Thread)
    requires Inv(s) && t.id == s.nextId && !t.initial
    ensures var n := s.(queue := [t] + s.queue, nextId := s.nextId + 1);
            Owned(n) && Ids(Ring(n)) == Ids(Ring(s)) + {t.id}
  {
    var n := s.(queue := [t] + s.queue, nextId := s.nextId + 1);
    var a, b := Ring(s), Ring(n);
    assert forall k :: 0 <= k < |b| ==> b[k] == if k == 0 then a[0] else if k == 1 then t else a[k - 1];
    forall k | 0 <= k < |a| ensures a[k].id in Ids(b) {
      assert b[if k == 0 then 0 else k + 1] == a[k];
    }
    assert b[1] == t;
    assert Ids(b) == Ids(a) + {t.id};
  }

  /** The state after Spawn: the new thread runs, and whoever spawned it is at the back of the queue. */
  function Spawned(s: System): System {
    var left := if s.current.status.Running? then Ready else s.current.status;
    s.(queue := s.queue + [s.current.(status := left, position := FromYield)],
       current := Thread(s.nextId, Status.Running, false, Entry), nextId := s.nextId + 1)
  }

  lemma LeaveFront(s: System, onlyReady: bool)
    requires s.queue != [] && Eligible(s, s.queue[0], onlyReady)
    ensures Leave(s, onlyReady, FromYield) == (SwitchTo(s, 0, FromYield), true)
  {
  }

  lemma SpawnSwitch(s: System)
    ensures var n := s.(queue := [Thread(s.nextId, Ready, false, Entry)] + s.queue, nextId := s.nextId + 1);
            SwitchTo(n, 0, FromYield) == Spawned(s)
  {
    var n := s.(queue := [Thread(s.nextId, Ready, false, Entry)] + s.queue, nextId := s.nextId + 1);
    assert n.queue[..0] + n.queue[0 + 1..] == s.queue;
  }

  /** A spawned thread is the next to run. */
  lemma SpawnRunsNext(s: System)
    ensures Step(s, Spawn) == Goes(Spawned(s), Entered)
  {
    var n := s.(queue := [Thread(s.nextId, Ready, false, Entry)] + s.queue, nextId := s.nextId + 1);
    LeaveFront(n, true);
    SpawnSwitch(s);
  }

  lemma SpawnKeeps(s: System)
    requires Inv(s)
    ensures Kind(s, Spawn, Step(s, Spawn))
  {
    SpawnRunsNext(s);
    var t := Thread(s.nextId, Ready, false, Entry);
    SpawnOwned(s, t);
    var n := s.(queue := [t] + s.queue, nextId := s.nextId + 1);
    SwitchOwned(n, 0, FromYield);
    SpawnSwitch(s);
  }

  lemma StepKeeps(s: System, op: Op)
    requires Inv(s) && Allowed(s, op)
    ensures Kind(s, op, Step(s, op))
  {
    match op {
      case Spawn => SpawnKeeps(s);
      case Yield(onlyReady) => YieldKeeps(s, onlyReady);
      case Wait => WaitKeeps(s);
      case Exit => ExitKeeps(s);
    }
  }

  // -------------------------------------------------------------------------------- runs

  /** Calls made one after the other, each by the thread that is current by then. */
  ghost function Run(s: System, ops: seq<Op>): Result
    requires Inv(s)
    decreases |ops|
  {
    if ops == [] then Goes(s, Entered)
    else if !Allowed(s, ops[0]) then Run(s, ops[1..])
    else
      StepKeeps(s, ops[0]);
      var r := Step(s, ops[0]);
      if |ops| == 1 then r else Run(r.sys, ops[1..])
  }

  /**
   * Every run from Initialize: an exiting thread always finds a successor, each thread has one owner, no
   * thread at rest is a zombie, and Wait returns only when every spawned thread is gone.
   */
  lemma {:induction false} RunKeeps(s: System, ops: seq<Op>)
    requires Inv(s)
    ensures var r := Run(s, ops);
            && r.Goes? && Inv(r.sys)
            && (forall i :: 0 <= i < |r.sys.queue| ==> !r.sys.queue[i].status.Zombie?)
            && (r.outcome.Waited? ==> r.sys.queue == [] && r.sys.current.initial)
    decreases |ops|
  {
    if ops != [] {
      if !Allowed(s, ops[0]) {
        RunKeeps(s, ops[1..]);
      } else {
        StepKeeps(s, ops[0]);
        var r := Step(s, ops[0]).sys;
        RunKeeps(r, ops[1..]);
        InitialExists(r);
      }
    }
  }

  /**
   * Wait called by a spawned thread returns at once exactly when no thread in the queue is ready, and
   * the queue, in which at least the initial thread is, stays as it was; otherwise another thread runs.
   */
  lemma WaitBySpawned(s: System)
    requires Inv(s) && !s.current.initial
    ensures var r := Step(s, Wait);
            && r.Goes?
            && (r.outcome.Waited? <==> forall i :: 0 <= i < |s.queue| ==> !s.queue[i].status.Ready?)
            && (r.outcome.Waited? ==> r.sys.queue == s.queue != [] && r.sys.current.id == s.current.id)
            && (!r.outcome.Waited? ==> r.outcome == Yielded(true) && r.sys.current.id != s.current.id)
  {
    var w := s.(current := s.current.(status := Waiting));
    var i := Pick(w, true);
    InitialExists(s);
    assert Ring(s)[0] == s.current;
    forall j | 0 <= j < |s.queue| ensures Eligible(w, w.queue[j], true) <==> s.queue[j].status.Ready? {
    }
    if i < |s.queue| {
      assert Resting(s.queue[i]) && Ring(s)[i + 1] == s.queue[i];
      var r := SwitchTo(w, i, FromWait);
      assert Leave(w, true, FromWait) == (r, true);
      assert r.current.position.FromYield?;
      assert WaitLoop(w) == Land(r) == Goes(r.(queue := Collect(r.queue)), Yielded(true));
    }
  }

  /** A spawned thread that calls Wait is let go at once although the initial thread is still there. */
  lemma WaitOfASpawnedThread()
    ensures var r := Step(Start(0), Spawn);
            && r.Goes? && Inv(r.sys)
            && var w := Step(r.sys, Wait);
               w.Goes? && w.outcome.Waited? && w.sys.queue != [] && !w.sys.current.initial
  {
    StartInv(0);
    SpawnRunsNext(Start(0));
    SpawnKeeps(Start(0));
    var r := Spawned(Start(0));
    assert AllNamed(Ring(r), r.initialId, r.nextId) && Ring(r)[0] == r.current;
    WaitBySpawned(r);
  }

  // ------------------------------------------------------------------------ who runs next

  /** A thread as it waits in the queue for its next turn. */
  function LeftBehind(t: Thread): Thread {
    t.(status := if t.status.Running? then Ready else t.status, position := FromYield)
  }

  /**
   * `first` gets the processor and the others queue up in the order of `rest`. The initial thread, when it is in
   * the loop of Wait, passes on to the next one and goes behind the others, or returns when there is none.
   */
  function GoesOn(s: System, first: Thread, rest: seq<Thread>): Result {
    if !first.position.FromWait? then
      Goes(s.(queue := rest, current := first.(status := Running)), Yielded(true))
    else if rest == [] then
      Goes(s.(queue := [], current := first.(status := Waiting, position := FromYield)), Waited)
    else
      Goes(s.(queue := rest[1..] + [first.(status := Waiting)], current := rest[0].(status := Running)),
           Yielded(true))
  }

  /** After the switch to the thread at `i`, with the caller at the end of the queue. */
  lemma SwitchGoesOn(s: System, i: nat)
    requires Owned(s) && AllResting(s.queue) && i < |s.queue|
    requires if s.current.status.Zombie? then !s.current.initial
             else s.current.status.Running? || (s.current.initial && s.current.status.Waiting?)
    ensures Land(SwitchTo(s, i, FromYield)) ==
            GoesOn(s, s.queue[i], s.queue[..i] + s.queue[i + 1..] + Kept(LeftBehind(s.current)))
  {
    var rest, last := s.queue[..i] + s.queue[i + 1..], LeftBehind(s.current);
    var r := SwitchTo(s, i, FromYield);
    assert r.queue == rest + [last];
    assert forall j :: 0 <= j < |rest| ==> rest[j] == if j < i then s.queue[j] else s.queue[j + 1];
    assert Resting(s.queue[i]);
    LandIs(r, rest, last);
    if s.queue[i].position.FromWait? {
      var c := r.(queue := rest + Kept(last));
      SwitchOwned(s, i, FromYield);
      PassesOn(r, rest, last);
      assert WaitLoop(c.(current := c.current.(status := Waiting))) == GoesOn(s, s.queue[i], rest + Kept(last));
    }
  }

  /** The initial thread, back in the loop of Wait. */
  lemma PassesOn(r: System, rest: seq<Thread>, last: Thread)
    requires Owned(r) && r.queue == rest + [last] && AllResting(rest)
    requires r.current.initial && r.current.position.FromWait?
    requires if last.status.Zombie? then !last.initial else Resting(last)
    ensures var c := r.(queue := rest + Kept(last));
            WaitLoop(c.(current := c.current.(status := Waiting))) == GoesOn(r, r.current, rest + Kept(last))
  {
    var c := r.(queue := rest + Kept(last));
    if last.status.Zombie? {
      DropOwned(r, rest, last);
      assert rest + Kept(last) == rest;
    }
    Relabel(c, Waiting, FromWait);
    var w := c.(current := c.current.(status := Waiting));
    WaitLoopIs(w);
    if w.queue != [] { assert w.queue[..0] + w.queue[1..] == w.queue[1..]; }
  }

  lemma MayRun(s: System, t: Thread, j: nat, onlyReady: bool)
    requires Inv(s) && j < |s.queue| && t == s.queue[j]
    ensures Eligible(s, t, onlyReady) <==> t.status.Ready? || !onlyReady
  {
    assert Ring(s)[0] == s.current && Ring(s)[j + 1] == t && Resting(t);
  }

  /** Yield(true) leaves everything as it is exactly when no thread in the queue is ready. */
  lemma YieldStays(s: System)
    requires Inv(s)
    ensures Step(s, Yield(true)) == Goes(s, Yielded(false)) <==>
              forall i :: 0 <= i < |s.queue| ==> !s.queue[i].status.Ready?
  {
    var i := Pick(s, true);
    forall j | 0 <= j < |s.queue| ensures Eligible(s, s.queue[j], true) <==> s.queue[j].status.Ready? {
      MayRun(s, s.queue[j], j, true);
    }
    if i < |s.queue| {
      assert s.queue[i].status.Ready? && Resting(s.queue[i]);
      SwitchGoesOn(s, i);
      assert Step(s, Yield(true)) == Land(SwitchTo(s, i, FromYield));
    }
  }

  /** Otherwise the first ready thread runs, and the caller is behind the others. */
  lemma YieldToReady(s: System, i: nat)
    requires Inv(s) && i < |s.queue| && s.queue[i].status.Ready?
    requires forall j :: 0 <= j < i ==> !s.queue[j].status.Ready?
    ensures Step(s, Yield(true)) ==
            Goes(s.(queue := s.queue[..i] + s.queue[i + 1..] + [LeftBehind(s.current)],
                    current := s.queue[i].(status := Running)),
                 Yielded(true))
  {
    forall j | 0 <= j < |s.queue| ensures Eligible(s, s.queue[j], true) <==> s.queue[j].status.Ready? {
      MayRun(s, s.queue[j], j, true);
    }
    assert Pick(s, true) == i;
    assert Resting(s.queue[i]);
    SwitchGoesOn(s, i);
  }

  lemma FrontGoesOn(s: System)
    requires Inv(s) && s.queue != []
    ensures Land(SwitchTo(s, 0, FromYield)) == GoesOn(s, s.queue[0], s.queue[1..] + [LeftBehind(s.current)])
  {
    SwitchGoesOn(s, 0);
    assert s.queue[..0] + s.queue[1..] == s.queue[1..];
  }

  /** Yield(false) runs the front of the queue, if there is one. */
  lemma YieldToFront(s: System)
    requires Inv(s)
    ensures Step(s, Yield(false)) ==
            if s.queue == [] then Goes(s, Yielded(false))
            else GoesOn(s, s.queue[0], s.queue[1..] + [LeftBehind(s.current)])
  {
    assert s.queue == [] ==> Pick(s, false) == 0;
    if s.queue != [] {
      FrontGoesOn(s);
      MayRun(s, s.queue[0], 0, false);
      LeaveFront(s, false);
    }
  }

  /** After an exit the front of the queue runs, and the others stay in their order. */
  lemma ExitToFront(s: System)
    requires Inv(s) && !s.current.initial
    ensures s.queue != [] && Step(s, Exit) == GoesOn(s, s.queue[0], s.queue[1..])
  {
    var z := s.(current := s.current.(status := Zombie));
    Relabel(s, Zombie, s.current.position);
    SuccessorExists(z);
    MayRun(s, s.queue[0], 0, false);
    assert Eligible(z, z.queue[0], false);
    assert Pick(z, false) == 0;
    SwitchGoesOn(z, 0);
    assert s.queue[..0] + s.queue[1..] + [] == s.queue[1..];
  }

  /** Wait by the initial thread runs the front of the queue, and returns when there is none. */
  lemma WaitToFront(s: System)
    requires Inv(s) && s.current.initial
    ensures Step(s, Wait) == GoesOn(s, s.current.(position := FromWait), s.queue)
  {
    Relabel(s, Waiting, s.current.position);
    WaitLoopIs(s.(current := s.current.(status := Waiting)));
    if s.queue != [] { assert s.queue[..0] + s.queue[1..] == s.queue[1..]; }
  }

  // ------------------------------------------------------------------------- round robin

  /** The threads of a list that are not waiting for the others to finish. */
  function Callers(ts: seq<Thread>): seq<nat> {
    if ts == [] then []
    else (if ts[0].position.FromWait? then [] else [ts[0].id]) + Callers(ts[1..])
  }

  /** The threads that take turns, the current one first. */
  function Active(s: System): seq<nat> { [s.current.id] + Callers(s.queue) }

  lemma {:induction false} CallersConcat(a: seq<Thread>, b: seq<Thread>)
    ensures Callers(a + b) == Callers(a) + Callers(b)
    decreases |a|
  {
    if a == [] {
      assert a + b == b;
    } else {
      assert (a + b)[1..] == a[1..] + b;
      CallersConcat(a[1..], b);
    }
  }

  function Rotate<T>(a: seq<T>, k: nat): seq<T>
    requires k <= |a|
  {
    a[k..] + a[..k]
  }

  lemma CallersAppend(ts: seq<Thread>, t: Thread)
    ensures Callers(ts + [t]) == Callers(ts) + if t.position.FromWait? then [] else [t.id]
  {
    CallersConcat(ts, [t]);
    assert [t][1..] == [];
  }

  ghost function RingIds(s: System): seq<nat> {
    seq(|Ring(s)|, i requires 0 <= i < |Ring(s)| => Ring(s)[i].id)
  }

  lemma FrontRing(s: System, position: Position)
    requires s.queue != []
    ensures RingIds(SwitchTo(s, 0, position)) == Rotate(RingIds(s), 1)
  {
    var a, b := RingIds(s), RingIds(SwitchTo(s, 0, position));
    forall k | 0 <= k < |a| ensures b[k] == Rotate(a, 1)[k] {
      if 0 < k < |s.queue| { assert SwitchTo(s, 0, position).queue[k - 1] == s.queue[k]; }
    }
  }

  /** A turn taken by the initial thread inside Wait passes on to the next thread. */
  lemma WaitPasses(s: System)
    requires Owned(s) && AllResting(s.queue) && s.queue != []
    requires s.current.initial && s.current.status.Waiting?
    ensures var r := WaitLoop(s);
            r.Goes? && Active(r.sys) == Callers(s.queue) && RingIds(r.sys) == Rotate(RingIds(s), 1)
  {
    WaitLoopIs(s);
    assert Ring(s)[0] == s.current && Ring(s)[1] == s.queue[0];
    var me := s.current.(position := FromWait);
    assert SwitchTo(s, 0, FromWait).queue == s.queue[1..] + [me];
    CallersAppend(s.queue[1..], me);
    assert Callers(s.queue[1..]) + [] == Callers(s.queue[1..]);
    FrontRing(s, FromWait);
  }

  /** One Yield(false): the active threads move up by one place; the whole ring turns by one place or two. */
  lemma YieldRotates(s: System)
    requires Inv(s)
    ensures var r := Step(s, Yield(false));
            && r.Goes? && Inv(r.sys) && Active(r.sys) == Rotate(Active(s), 1)
            && Turned(RingIds(s), RingIds(r.sys))
  {
    YieldKeeps(s, false);
    if s.queue == [] {
      assert Pick(s, false) == 0;
      assert RingIds(s) == Rotate(RingIds(s), 0);
    } else {
      assert Ring(s)[0] == s.current && Ring(s)[1] == s.queue[0];
      PickFront(s, false);
      FrontTurn(s);
    }
  }

  ghost predicate Turned(a: seq<nat>, b: seq<nat>) {
    exists k: nat :: k <= |a| && b == Rotate(a, k)
  }

  /** Turning `j` places and then `k` more. */
  lemma RotateTwice(a: seq<nat>, j: nat, k: nat)
    requires j <= |a| && k <= |a|
    ensures Rotate(Rotate(a, j), k) == Rotate(a, if j + k <= |a| then j + k else j + k - |a|)
  {
    var n := |a|;
    var b, c, d := Rotate(a, j), Rotate(Rotate(a, j), k), Rotate(a, if j + k <= n then j + k else j + k - n);
    forall i | 0 <= i < n ensures c[i] == d[i] {
      assert c[i] == b[if i + k < n then i + k else i + k - n];
    }
  }

  /** The state after the front of a resting queue has become current, before its own code runs. */
  lemma FrontSwitch(s: System)
    requires Inv(s) && s.queue != []
    ensures var r := SwitchTo(s, 0, FromYield);
            && r.queue != [] && AllResting(r.queue) && r.current.id == s.queue[0].id
            && Callers(r.queue) == Callers(s.queue[1..]) + [s.current.id]
            && Land(r) == if r.current.position.FromYield? then Goes(r, Yielded(true))
                          else WaitLoop(r.(current := r.current.(status := Waiting)))
  {
    var r := SwitchTo(s, 0, FromYield);
    var me := r.queue[|s.queue| - 1];
    assert r.queue == s.queue[1..] + [me];
    LandIs(r, s.queue[1..], me);
    assert r.(queue := s.queue[1..] + Kept(me)) == r;
    CallersAppend(s.queue[1..], me);
  }

  lemma FrontTurn(s: System)
    requires Inv(s) && s.queue != []
    ensures var r := Land(SwitchTo(s, 0, FromYield));
            && r.Goes? && Active(r.sys) == Rotate(Active(s), 1) && Turned(RingIds(s), RingIds(r.sys))
  {
    var r := SwitchTo(s, 0, FromYield);
    FrontSwitch(s);
    FrontRing(s, FromYield);
    ActiveRotated(s.current.id, Callers(s.queue));
    if s.queue[0].position.FromWait? {
      SwitchOwned(s, 0, FromYield);
      WaitTurn(s, r);
    }
  }

  lemma ActiveRotated(id: nat, callers: seq<nat>)
    ensures Rotate([id] + callers, 1) == callers + [id]
    ensures callers != [] ==> callers + [id] == [callers[0]] + (callers[1..] + [id])
  {
    assert ([id] + callers)[1..] == callers;
  }

  lemma WaitTurn(s: System, r: System)
    requires Owned(r) && AllResting(r.queue) && r.current.initial && r.queue != []
    requires RingIds(r) == Rotate(RingIds(s), 1) && |Ring(s)| == |Ring(r)|
    ensures var w := WaitLoop(r.(current := r.current.(status := Waiting)));
            w.Goes? && Active(w.sys) == Callers(r.queue) && Turned(RingIds(s), RingIds(w.sys))
  {
    var c := r.(current := r.current.(status := Waiting));
    Relabel(r, Waiting, r.current.position);
    assert RingIds(c) == RingIds(r);
    WaitPasses(c);
    RotateTwice(RingIds(s), 1, 1);
  }

  /** The state after `k` calls of Yield(false), each by the thread that is current by then. */
  ghost function Turns(s: System, k: nat): System
    requires Inv(s)
    ensures Inv(Turns(s, k))
    decreases k
  {
    if k == 0 then s
    else
      YieldRotates(s);
      Turns(Step(s, Yield(false)).sys, k - 1)
  }

  lemma TurnedTwice(a: seq<nat>, b: seq<nat>, c: seq<nat>)
    requires Turned(a, b) && Turned(b, c)
    ensures Turned(a, c)
  {
    var j: nat :| j <= |a| && b == Rotate(a, j);
    var k: nat :| k <= |b| && c == Rotate(b, k);
    RotateTwice(a, j, k);
  }

  lemma {:induction false} TurnsRotate(s: System, k: nat)
    requires Inv(s) && k <= |Active(s)|
    ensures Active(Turns(s, k)) == Rotate(Active(s), k) && Turned(RingIds(s), RingIds(Turns(s, k)))
    decreases k
  {
    if k == 0 {
      assert RingIds(s) == Rotate(RingIds(s), 0);
    } else {
      YieldRotates(s);
      var r := Step(s, Yield(false)).sys;
      TurnsRotate(r, k - 1);
      RotateTwice(Active(s), 1, k - 1);
      TurnedTwice(RingIds(s), RingIds(r), RingIds(Turns(r, k - 1)));
    }
  }

  /** A ring of different ids turned back to the same first one is the same ring. */
  lemma TurnedBack(a: seq<nat>, b: seq<nat>)
    requires Turned(a, b) && a != [] && a[0] == b[0]
    requires forall i, j :: 0 <= i < j < |a| ==> a[i] != a[j]
    ensures a == b
  {
  }

  ghost predicate Holds(ts: seq<Thread>, id: nat) {
    exists m :: 0 <= m < |ts| && ts[m].id == id
  }

  lemma {:induction false} CallersDistinct(ts: seq<Thread>)
    requires DistinctIds(ts)
    ensures forall k :: 0 <= k < |Callers(ts)| ==> Holds(ts, Callers(ts)[k])
    ensures forall i, j :: 0 <= i < j < |Callers(ts)| ==> Callers(ts)[i] != Callers(ts)[j]
    decreases |ts|
  {
    if ts != [] {
      CallersDistinct(ts[1..]);
      var rest := Callers(ts[1..]);
      forall k | 0 <= k < |rest| ensures rest[k] != ts[0].id && Holds(ts, rest[k]) {
        var m :| 0 <= m < |ts[1..]| && ts[1..][m].id == rest[k];
        assert ts[m + 1].id == rest[k];
      }
      assert Holds(ts, ts[0].id);
    }
  }

  lemma ActiveDistinct(s: System)
    requires DistinctIds(Ring(s))
    ensures forall i, j :: 0 <= i < j < |Active(s)| ==> Active(s)[i] != Active(s)[j]
    ensures forall i, j :: 0 <= i < j < |RingIds(s)| ==> RingIds(s)[i] != RingIds(s)[j]
  {
    forall i, j | 0 <= i < j < |s.queue| ensures s.queue[i].id != s.queue[j].id {
      assert Ring(s)[i + 1].id != Ring(s)[j + 1].id;
    }
    CallersDistinct(s.queue);
    forall j | 0 < j < |Active(s)| ensures Active(s)[j] != s.current.id {
      assert Holds(s.queue, Callers(s.queue)[j - 1]);
      var m :| 0 <= m < |s.queue| && s.queue[m].id == Callers(s.queue)[j - 1];
      assert Ring(s)[m + 1] == s.queue[m] && Ring(s)[0] == s.current;
    }
  }

  /**
   * Round robin: with n threads that are not in Wait, n calls of Yield(false) in a row run each of them
   * exactly once, in order, and then the current thread and the order of the queue are what they were.
   */
  lemma RoundRobin(s: System)
    requires Inv(s)
    ensures var n := |Active(s)|;
            && (forall k: nat :: k < n ==> Turns(s, k).current.id == Active(s)[k])
            && (forall i, j :: 0 <= i < j < n ==> Active(s)[i] != Active(s)[j])
            && RingIds(Turns(s, n)) == RingIds(s)
  {
    var n := |Active(s)|;
    forall k: nat | k < n ensures Turns(s, k).current.id == Active(s)[k] {
      TurnsRotate(s, k);
      assert Active(Turns(s, k))[0] == Active(s)[k];
    }
    TurnsRotate(s, n);
    assert Active(Turns(s, n))[0] == Active(s)[0];
    ActiveDistinct(s);
    TurnedBack(RingIds(s), RingIds(Turns(s, n)));
  }

  // ----------------------------------------------------------------------------- in place

  function ZombieCount(ts: seq<Thread>): nat {
    if ts == [] then 0 else ZombieCount(ts[..|ts| - 1]) + if ts[|ts| - 1].status.Zombie? then 1 else 0
  }

  lemma {:induction false} NoZombies(ts: seq<Thread>)
    requires forall i :: 0 <= i < |ts| ==> !ts[i].status.Zombie?
    ensures ZombieCount(ts) == 0
    decreases |ts|
  {
    if ts != [] { NoZombies(ts[..|ts| - 1]); }
  }

  /** thread_queue, current_thread, initial_thread_id and Thread::next_id. */
  class Scheduler {
    var queue: seq<Thread>
    var current: Thread
    var initialId: nat
    var nextId: nat

    ghost function Sys(): System
      reads this
    {
      System(queue, current, initialId, nextId)
    }

    /** Initialize, the first thing called on the kernel thread. */
    constructor (id: nat)
      ensures Sys() == Start(id) && Inv(Sys())
    {
      queue, current, initialId, nextId := [], Thread(id, Waiting, true, FromYield), id, id + 1;
      new;
      StartInv(id);
    }

    /** Yield up to the context switch. */
    method YieldAway(onlyReady: bool, position: Position) returns (switched: bool)
      modifies this
      ensures (Sys(), switched) == Leave(old(Sys()), onlyReady, position)
      ensures switched <==> exists i :: 0 <= i < |old(queue)|
                                        && (old(queue)[i].status.Ready?
                                            || (old(queue)[i].status.Waiting? && !onlyReady))
                                        && (old(current.id) != initialId || !old(queue)[i].initial)
      ensures nextId == old(nextId) && initialId == old(initialId)
    {
      var it := 0;
      ghost var s := Sys();
      while it != |queue|
        invariant 0 <= it <= |queue| && Sys() == s
        invariant forall j :: 0 <= j < it ==> !Eligible(s, queue[j], onlyReady)
      {
        if queue[it].status.Ready? || (queue[it].status.Waiting? && !onlyReady) {
          if current.id != initialId {
            break;
          } else if !queue[it].initial {
            break;
          }
        }
        it := it + 1;
      }
      assert it == Pick(s, onlyReady);
      if it == |queue| { return false; }
      var previous, next := current, queue[it];
      queue := queue[..it] + queue[it + 1..];
      if previous.status.Running? { previous := previous.(status := Ready); }
      next := next.(status := Status.Running);
      queue := queue + [previous.(position := position)];
      current := next;
      return true;
    }

    /** GarbageCollect: the zombies go, the others stay in order. */
    method GarbageCollect()
      modifies this`queue
      ensures queue == Collect(old(queue))
    {
      var kept: seq<Thread> := [];
      for i := 0 to |queue|
        invariant kept == Collect(queue[..i])
        invariant queue == old(queue)
      {
        assert queue[..i + 1][..i] == queue[..i];
        if !queue[i].status.Zombie? { kept := kept + [queue[i]]; }
      }
      assert queue[..|queue|] == queue;
      queue := kept;
    }

    /** GetThreadCount: between calls there are no zombies to count. */
    method GetThreadCount() returns (ready: nat, zombie: nat)
      ensures zombie == ZombieCount(queue) && ready == |queue| - zombie
      ensures Inv(Sys()) ==> ready == |queue| && zombie == 0
    {
      ready, zombie := 0, 0;
      for i := 0 to |queue|
        invariant zombie == ZombieCount(queue[..i]) && ready == i - zombie
      {
        assert queue[..i + 1][..i] == queue[..i];
        if queue[i].status.Zombie? { zombie := zombie + 1; } else { ready := ready + 1; }
      }
      assert queue[..|queue|] == queue;
      if forall i :: 0 <= i < |queue| ==> !queue[i].status.Zombie? { NoZombies(queue); }
    }

    /** What runs from the context switch on until a thread is back in its own code. */
    method Resume() returns (outcome: Outcome)
      modifies this
      ensures Goes(Sys(), outcome) == Land(old(Sys()))
      decreases ReadyCount(queue), 1
    {
      match current.position {
        case Entry => outcome := Entered;
        case FromYield => GarbageCollect(); outcome := Yielded(true);
        case FromWait =>
          ReadyCollect(queue);
          GarbageCollect();
          current := current.(status := Waiting);
          outcome := WaitOn();
      }
    }

    /** The loop of Wait: it goes round once for each time the waiting thread is switched back to. */
    method WaitOn() returns (outcome: Outcome)
      requires current.status.Waiting?
      modifies this
      ensures Goes(Sys(), outcome) == WaitLoop(old(Sys()))
      decreases ReadyCount(queue), 0
    {
      LeaveFewer(Sys());
      var switched := YieldAway(true, FromWait);
      if switched {
        outcome := Resume();
      } else {
        current := current.(position := FromYield);
        outcome := Waited;
      }
    }

    /** Spawn. */
    method Spawn() returns (outcome: Outcome)
      requires Inv(Sys())
      modifies this
      ensures Goes(Sys(), outcome) == Step(old(Sys()), Op.Spawn) && Inv(Sys())
      ensures current.id == old(nextId) && current.status.Running? && outcome.Entered?
    {
      SpawnKeeps(Sys());
      SpawnRunsNext(Sys());
      var t := Thread(nextId, Waiting, false, Entry);
      nextId := nextId + 1;
      t := t.(status := Ready);
      queue := [t] + queue;
      var switched := YieldAway(true, FromYield);
      outcome := if switched then Entered else Yielded(false);
      if switched { outcome := Resume(); }
    }

    /** Yield, seen from the thread that runs next. */
    method Yield(onlyReady: bool) returns (outcome: Outcome)
      requires Inv(Sys())
      modifies this
      ensures Goes(Sys(), outcome) == Step(old(Sys()), Op.Yield(onlyReady)) && Inv(Sys())
      ensures Kind(old(Sys()), Op.Yield(onlyReady), Goes(Sys(), outcome))
    {
      YieldKeeps(Sys(), onlyReady);
      var switched := YieldAway(onlyReady, FromYield);
      outcome := Yielded(false);
      if switched { outcome := Resume(); }
    }

    /** Wait, called by the initial thread. */
    method Wait() returns (outcome: Outcome)
      requires Inv(Sys()) && current.initial
      modifies this
      ensures Goes(Sys(), outcome) == Step(old(Sys()), Op.Wait) && Inv(Sys())
      ensures outcome.Waited? <==> queue == []
    {
      WaitKeeps(Sys());
      InitialCurrent(Sys());
      current := current.(status := Waiting);
      outcome := WaitOn();
    }

    /** ThreadEntry after the thread's function has returned: control never comes back. */
    method Exit() returns (outcome: Outcome)
      requires Inv(Sys()) && !current.initial
      modifies this
      ensures Goes(Sys(), outcome) == Step(old(Sys()), Op.Exit) && Inv(Sys())
      ensures old(current.id) !in Ids(Ring(Sys()))
    {
      ExitKeeps(Sys());
      current := current.(status := Zombie);
      var switched := YieldAway(false, FromYield);
      assert switched;
      outcome := Resume();
    }
  }
}
