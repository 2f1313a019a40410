/**
 * The set of running timeouts: a list kept in the order they fall due.
 */
module TimerSet {
  type Handle = nat

  /** A running timeout: its handle, the instant it falls due, and how many were added before it. */
  datatype Timeout = Timeout(handle: Handle, due: nat, order: nat)

  predicate Running(ts: seq<Timeout>, h: Handle) {
    exists i :: 0 <= i < |ts| && ts[i].handle == h
  }

  /** Where a timeout due at `due` goes: before the first one that is due later. */
  function Place(ts: seq<Timeout>, due: nat): (i: nat)
    ensures i <= |ts|
    ensures i < |ts| ==> due < ts[i].due
    ensures forall j :: 0 <= j < i ==> ts[j].due <= due
  {
    if ts == [] || due < ts[0].due then 0 else 1 + Place(ts[1..], due)
  }

  function Find(ts: seq<Timeout>, h: Handle): (i: int)
    ensures -1 <= i < |ts|
    ensures i >= 0 ==> ts[i].handle == h
    ensures i == -1 <==> !Running(ts, h)
  {
    if ts == [] then -1
    else if ts[0].handle == h then 0
    else
      var r := Find(ts[1..], h);
      if r == -1 then
        assert forall j :: 1 <= j < |ts| ==> ts[j] == ts[1..][j - 1];
        -1
      else
        assert ts[r + 1].handle == h;
        r + 1
  }

  // ----------------------------------------------------------------------------------- runs

  /** The clock, the running timeouts, those delivered and removed so far in order, and how many were added. */
  datatype State =
    State(now: nat, running: seq<Timeout>, delivered: seq<Timeout>, removed: seq<Timeout>, added: nat)

  const START := State(0, [], [], [], 0)

  /** What can happen; time only moves forward and timeouts are not negative. */
  datatype Op = Tick(ms: nat) | Add(handle: Handle, timeout: nat) | Rm(handle: Handle) | Event

  /** nn_timerset_add needs a handle that is not running. */
  predicate Allowed(s: State, op: Op) {
    op.Add? ==> !Running(s.running, op.handle)
  }

  function Insert(ts: seq<Timeout>, t: Timeout): seq<Timeout> {
    var i := Place(ts, t.due);
    ts[..i] + [t] + ts[i..]
  }

  function Step(s: State, op: Op): State
    requires Allowed(s, op)
  {
    match op
    case Tick(ms) => s.(now := s.now + ms)
    case Add(h, timeout) =>
      s.(running := Insert(s.running, Timeout(h, s.now + timeout, s.added)), added := s.added + 1)
    case Rm(h) =>
      var i := Find(s.running, h);
      if i == -1 then s
      else s.(running := s.running[..i] + s.running[i + 1..], removed := s.removed + [s.running[i]])
    case Event =>
      if s.running == [] || s.running[0].due > s.now then s
      else s.(running := s.running[1..], delivered := s.delivered + [s.running[0]])
  }

  /** Due earlier, or at the same time and added earlier. */
  predicate Earlier(a: Timeout, b: Timeout) {
    a.due < b.due || (a.due == b.due && a.order < b.order)
  }

  predicate Sorted(ts: seq<Timeout>) {
    forall i, j :: 0 <= i < j < |ts| ==> Earlier(ts[i], ts[j])
  }

  predicate DistinctHandles(ts: seq<Timeout>) {
    forall i, j :: 0 <= i < j < |ts| ==> ts[i].handle != ts[j].handle
  }

  /**
   * What was delivered, followed by what is still running, is one sequence in order of due time, ties
   * in order of addition, and nothing is delivered early.
   */
  ghost predicate Inv(s: State) {
    && Sorted(s.delivered + s.running)
    && DistinctHandles(s.running)
    && (forall i :: 0 <= i < |s.delivered| ==> s.delivered[i].due <= s.now && s.delivered[i].order < s.added)
    && (forall i :: 0 <= i < |s.running| ==> s.running[i].order < s.added)
  }

  /** Where the elements of `ts` end up when one is put in at `i`. */
  lemma InsertAt(ts: seq<Timeout>, t: Timeout, j: nat)
    requires j <= |ts|
    ensures var i := Place(ts, t.due);
            |Insert(ts, t)| == |ts| + 1
            && Insert(ts, t)[j] == if j < i then ts[j] else if j == i then t else ts[j - 1]
  {
  }

  lemma SortedWith(ts: seq<Timeout>, k: nat, t: Timeout)
    requires k <= |ts| && Sorted(ts)
    requires forall j :: 0 <= j < k ==> Earlier(ts[j], t)
    requires forall j :: k <= j < |ts| ==> Earlier(t, ts[j])
    ensures Sorted(ts[..k] + [t] + ts[k..])
  {
    var new' := ts[..k] + [t] + ts[k..];
    forall i, j | 0 <= i < j < |new'| ensures Earlier(new'[i], new'[j]) {
      assert new'[i] == if i < k then ts[i] else if i == k then t else ts[i - 1];
      assert new'[j] == if j < k then ts[j] else if j == k then t else ts[j - 1];
    }
  }

  lemma Splice(a: seq<Timeout>, b: seq<Timeout>, i: nat, mid: seq<Timeout>, k: nat)
    requires i <= k <= |b|
    ensures (a + b)[..|a| + i] + mid + (a + b)[|a| + k..] == a + (b[..i] + mid + b[k..])
  {
    assert (a + b)[..|a| + i] == a + b[..i];
    assert (a + b)[|a| + k..] == b[k..];
  }

  /** From the place of a new timeout on, everything is due later. */
  lemma LaterFrom(ts: seq<Timeout>, due: nat, j: nat)
    requires Sorted(ts) && Place(ts, due) <= j < |ts|
    ensures due < ts[j].due
  {
    if j > Place(ts, due) { assert Earlier(ts[Place(ts, due)], ts[j]); }
  }

  lemma SortedTail(a: seq<Timeout>, ts: seq<Timeout>)
    requires Sorted(a + ts)
    ensures Sorted(ts)
  {
    forall i, j | 0 <= i < j < |ts| ensures Earlier(ts[i], ts[j]) {
      assert (a + ts)[|a| + i] == ts[i] && (a + ts)[|a| + j] == ts[j];
    }
  }

  lemma Around(a: seq<Timeout>, ts: seq<Timeout>, t: Timeout, j: nat)
    requires Sorted(ts) && j < |a| + |ts|
    requires forall i :: 0 <= i < |a| ==> Earlier(a[i], t)
    requires forall i :: 0 <= i < |ts| ==> ts[i].order < t.order
    ensures if j < |a| + Place(ts, t.due) then Earlier((a + ts)[j], t) else Earlier(t, (a + ts)[j])
  {
    if j >= |a| {
      assert (a + ts)[j] == ts[j - |a|];
      if j >= |a| + Place(ts, t.due) { LaterFrom(ts, t.due, j - |a|); }
    }
  }

  lemma AddSorted(s: State, t: Timeout)
    requires Inv(s) && t.due >= s.now && t.order == s.added
    ensures Sorted(s.delivered + Insert(s.running, t))
  {
    var i := Place(s.running, t.due);
    SortedTail(s.delivered, s.running);
    forall j | 0 <= j < |s.delivered| + |s.running|
      ensures if j < |s.delivered| + i then Earlier((s.delivered + s.running)[j], t)
              else Earlier(t, (s.delivered + s.running)[j])
    {
      Around(s.delivered, s.running, t, j);
    }
    SortedWith(s.delivered + s.running, |s.delivered| + i, t);
    Splice(s.delivered, s.running, i, [t], i);
  }

  lemma AddDistinct(ts: seq<Timeout>, t: Timeout)
    requires DistinctHandles(ts) && !Running(ts, t.handle)
    ensures DistinctHandles(Insert(ts, t))
  {
    forall j | 0 <= j <= |ts|
      ensures var i := Place(ts, t.due);
              Insert(ts, t)[j] == if j < i then ts[j] else if j == i then t else ts[j - 1]
    {
      InsertAt(ts, t, j);
    }
  }

  lemma AddNumbered(ts: seq<Timeout>, t: Timeout, added: nat)
    requires (forall j :: 0 <= j < |ts| ==> ts[j].order < added) && t.order == added
    ensures forall j :: 0 <= j < |Insert(ts, t)| ==> Insert(ts, t)[j].order < added + 1
  {
    forall j | 0 <= j <= |ts| ensures Insert(ts, t)[j].order < added + 1 {
      InsertAt(ts, t, j);
    }
  }

  lemma AddKeeps(s: State, h: Handle, timeout: nat)
    requires Inv(s) && Allowed(s, Add(h, timeout))
    ensures Inv(Step(s, Add(h, timeout)))
  {
    var t := Timeout(h, s.now + timeout, s.added);
    AddSorted(s, t);
    AddDistinct(s.running, t);
    AddNumbered(s.running, t, s.added);
    assert Step(s, Add(h, timeout)) == s.(running := Insert(s.running, t), added := s.added + 1);
  }

  lemma Without(ts: seq<Timeout>, k: nat)
    requires k < |ts|
    ensures var new' := ts[..k] + ts[k + 1..];
            && (Sorted(ts) ==> Sorted(new')) && (DistinctHandles(ts) ==> DistinctHandles(new'))
            && forall j :: 0 <= j < |new'| ==> new'[j] == if j < k then ts[j] else ts[j + 1]
  {
  }

  lemma RmSorted(a: seq<Timeout>, ts: seq<Timeout>, i: nat)
    requires Sorted(a + ts) && i < |ts|
    ensures Sorted(a + (ts[..i] + ts[i + 1..]))
  {
    Without(a + ts, |a| + i);
    Splice(a, ts, i, [], i + 1);
    assert ts[..i] + [] == ts[..i];
    assert (a + ts)[..|a| + i] + [] == (a + ts)[..|a| + i];
  }

  lemma RmKeeps(s: State, h: Handle)
    requires Inv(s)
    ensures Inv(Step(s, Rm(h)))
  {
    var i := Find(s.running, h);
    if i != -1 {
      RmSorted(s.delivered, s.running, i);
      Without(s.running, i);
    }
  }

  lemma EventKeeps(s: State)
    requires Inv(s)
    ensures Inv(Step(s, Event))
  {
    if s.running != [] && s.running[0].due <= s.now {
      assert s.delivered + [s.running[0]] + s.running[1..] == s.delivered + s.running;
    }
  }

  function Run(s: State, ops: seq<Op>): State
    decreases |ops|
  {
    if ops == [] then s
    else if !Allowed(s, ops[0]) then Run(s, ops[1..])
    else Run(Step(s, ops[0]), ops[1..])
  }

  lemma {:induction false} RunKeeps(s: State, ops: seq<Op>)
    requires Inv(s)
    ensures Inv(Run(s, ops))
    decreases |ops|
  {
    if ops != [] {
      if Allowed(s, ops[0]) {
        match ops[0] {
          case Tick(_) =>
          case Add(h, timeout) => AddKeeps(s, h, timeout);
          case Rm(h) => RmKeeps(s, h);
          case Event => EventKeeps(s);
        }
        RunKeeps(Step(s, ops[0]), ops[1..]);
      } else {
        RunKeeps(s, ops[1..]);
      }
    }
  }

  // ------------------------------------------------------------------- each timeout, once

  /** How often the timeout that was added as number `k` is in a list. */
  function Times(ts: seq<Timeout>, k: nat): nat {
    if ts == [] then 0 else (if ts[0].order == k then 1 else 0) + Times(ts[1..], k)
  }

  lemma {:induction false} TimesConcat(a: seq<Timeout>, b: seq<Timeout>, k: nat)
    ensures Times(a + b, k) == Times(a, k) + Times(b, k)
    decreases |a|
  {
    if a == [] {
      assert a + b == b;
    } else {
      assert (a + b)[1..] == a[1..] + b;
      TimesConcat(a[1..], b, k);
    }
  }

  lemma TimesOne(t: Timeout, k: nat)
    ensures Times([t], k) == if t.order == k then 1 else 0
  {
    assert [t][1..] == [];
  }

  /** Where a timeout is put makes no difference. */
  lemma TimesWith(a: seq<Timeout>, t: Timeout, b: seq<Timeout>, k: nat)
    ensures Times(a + [t] + b, k) == Times(a + b, k) + if t.order == k then 1 else 0
  {
    TimesConcat(a + [t], b, k);
    TimesConcat(a, [t], k);
    TimesConcat(a, b, k);
    TimesOne(t, k);
  }

  /** How often number `k` has a place: delivered, running or removed. */
  function Places(s: State, k: nat): nat {
    Times(s.delivered, k) + Times(s.running, k) + Times(s.removed, k)
  }

  /** Timeout `k` has one place if it was added, and none otherwise. */
  ghost predicate Placed(s: State, k: nat) {
    Places(s, k) == if k < s.added then 1 else 0
  }

  lemma AddPlaces(s: State, h: Handle, timeout: nat, k: nat)
    requires Allowed(s, Add(h, timeout)) && Placed(s, k)
    ensures Placed(Step(s, Add(h, timeout)), k)
  {
    var t := Timeout(h, s.now + timeout, s.added);
    var i := Place(s.running, t.due);
    assert s.running[..i] + s.running[i..] == s.running;
    TimesWith(s.running[..i], t, s.running[i..], k);
  }

  lemma RmPlaces(s: State, h: Handle, k: nat)
    ensures Places(Step(s, Rm(h)), k) == Places(s, k)
  {
    var i := Find(s.running, h);
    if i != -1 {
      var t := s.running[i];
      assert s.running[..i] + [t] + s.running[i + 1..] == s.running;
      TimesWith(s.running[..i], t, s.running[i + 1..], k);
      TimesConcat(s.removed, [t], k);
      TimesOne(t, k);
    }
  }

  lemma EventPlaces(s: State, k: nat)
    ensures Places(Step(s, Event), k) == Places(s, k)
  {
    if s.running != [] {
      TimesConcat(s.delivered, [s.running[0]], k);
      TimesOne(s.running[0], k);
    }
  }

  lemma {:induction false} RunPlaces(s: State, ops: seq<Op>, k: nat)
    requires Placed(s, k)
    ensures Placed(Run(s, ops), k)
    decreases |ops|
  {
    if ops != [] {
      if Allowed(s, ops[0]) {
        match ops[0] {
          case Tick(_) =>
          case Add(h, timeout) => AddPlaces(s, h, timeout, k);
          case Rm(h) => RmPlaces(s, h, k);
          case Event => EventPlaces(s, k);
        }
        RunPlaces(Step(s, ops[0]), ops[1..], k);
      } else {
        RunPlaces(s, ops[1..], k);
      }
    }
  }

  /**
   * Over any run expirations are delivered in order of due time, ties in order of addition, none early;
   * and each timeout that was added is exactly once among those delivered, running and removed.
   */
  lemma DeliveredInOrder(ops: seq<Op>)
    ensures var s := Run(START, ops);
            && Sorted(s.delivered) && Sorted(s.running)
            && (forall i :: 0 <= i < |s.delivered| ==> s.delivered[i].due <= s.now)
            && forall k: nat :: Placed(s, k)
  {
    var s := Run(START, ops);
    RunKeeps(START, ops);
    var all := s.delivered + s.running;
    assert forall i :: 0 <= i < |s.delivered| ==> all[i] == s.delivered[i];
    assert forall i :: 0 <= i < |s.running| ==> all[|s.delivered| + i] == s.running[i];
    forall k: nat ensures Placed(s, k) {
      RunPlaces(START, ops, k);
    }
  }

  // -------------------------------------------------------------------- what each call leads to

  /** A timeout that is added runs until it is due, as long after now as was asked; the others stay in order. */
  lemma AddLeadsTo(s: State, h: Handle, timeout: nat)
    requires Inv(s) && Allowed(s, Add(h, timeout))
    ensures var (r, t) := (Step(s, Add(h, timeout)), Timeout(h, s.now + timeout, s.added));
            && (exists i :: 0 <= i <= |s.running| && r.running == s.running[..i] + [t] + s.running[i..])
            && r.now == s.now && r.delivered == s.delivered && r.removed == s.removed && r.added == s.added + 1
  {
    var t := Timeout(h, s.now + timeout, s.added);
    var i := Place(s.running, t.due);
    assert Step(s, Add(h, timeout)).running == s.running[..i] + [t] + s.running[i..];
  }

  /** A handle that is removed runs no longer, and the others stay in order. */
  lemma RmLeadsTo(s: State, h: Handle)
    requires Inv(s)
    ensures var r := Step(s, Rm(h));
            && !Running(r.running, h)
            && r.now == s.now && r.delivered == s.delivered && r.added == s.added
            && if Running(s.running, h) then
                 exists i :: 0 <= i < |s.running| && s.running[i].handle == h
                             && r.running == s.running[..i] + s.running[i + 1..]
                             && r.removed == s.removed + [s.running[i]]
               else r == s
  {
    var i := Find(s.running, h);
    if i != -1 {
      Without(s.running, i);
      assert s.running[i].handle == h;
    }
  }

  /** An event delivers the timeout that is due first exactly when it is due, and none otherwise. */
  lemma EventLeadsTo(s: State)
    ensures var r := Step(s, Event);
            && r.now == s.now && r.removed == s.removed && r.added == s.added
            && if s.running != [] && s.running[0].due <= s.now then
                 r.delivered == s.delivered + [s.running[0]] && s.running == [s.running[0]] + r.running
               else r == s
  {
  }

  function Ticks(ops: seq<Op>): nat {
    if ops == [] then 0 else Ticks(ops[..|ops| - 1]) + if ops[|ops| - 1].Tick? then ops[|ops| - 1].ms else 0
  }

  lemma {:induction false} RunLast(s: State, ops: seq<Op>, last: Op)
    ensures Run(s, ops + [last]) ==
            if Allowed(Run(s, ops), last) then Step(Run(s, ops), last) else Run(s, ops)
    decreases |ops|
  {
    if ops == [] {
      assert [last][1..] == [];
    } else {
      assert (ops + [last])[1..] == ops[1..] + [last];
      if Allowed(s, ops[0]) {
        RunLast(Step(s, ops[0]), ops[1..], last);
      } else {
        RunLast(s, ops[1..], last);
      }
    }
  }

  /** The timeout was asked for in place `i` of a run, to fall due that long after the ticks until then. */
  ghost predicate Asked(ops: seq<Op>, t: Timeout, i: nat) {
    && i < |ops| && ops[i].Add? && ops[i].handle == t.handle
    && t.due == Ticks(ops[..i]) + ops[i].timeout
    && t.order == Run(START, ops[..i]).added
  }

  ghost predicate WasAsked(ops: seq<Op>, t: Timeout) {
    exists i: nat :: Asked(ops, t, i)
  }

  ghost predicate AllAsked(ops: seq<Op>, ts: seq<Timeout>) {
    forall t :: t in ts ==> WasAsked(ops, t)
  }

  lemma AskedStill(ops: seq<Op>, last: Op, ts: seq<Timeout>)
    requires AllAsked(ops, ts)
    ensures AllAsked(ops + [last], ts)
  {
    forall t | t in ts ensures WasAsked(ops + [last], t) {
      var i: nat :| Asked(ops, t, i);
      assert (ops + [last])[..i] == ops[..i] && (ops + [last])[i] == ops[i];
      assert Asked(ops + [last], t, i);
    }
  }

  lemma AskedNow(ops: seq<Op>, h: Handle, timeout: nat)
    requires Run(START, ops).now == Ticks(ops)
    ensures var s := Run(START, ops);
            Asked(ops + [Add(h, timeout)], Timeout(h, s.now + timeout, s.added), |ops|)
  {
    assert (ops + [Add(h, timeout)])[..|ops|] == ops;
  }

  lemma AskedAdd(ops: seq<Op>, h: Handle, timeout: nat)
    requires var s := Run(START, ops); Inv(s) && s.now == Ticks(ops) && Allowed(s, Add(h, timeout))
    requires AllAsked(ops, Run(START, ops).running)
    ensures AllAsked(ops + [Add(h, timeout)], Step(Run(START, ops), Add(h, timeout)).running)
  {
    var s := Run(START, ops);
    var t := Timeout(h, s.now + timeout, s.added);
    AskedStill(ops, Add(h, timeout), s.running);
    AskedNow(ops, h, timeout);
    assert WasAsked(ops + [Add(h, timeout)], t);
    var i := Place(s.running, t.due);
    assert Step(s, Add(h, timeout)).running == s.running[..i] + [t] + s.running[i..];
  }

  ghost predicate AllKnown(ops: seq<Op>, s: State) {
    AllAsked(ops, s.delivered) && AllAsked(ops, s.running) && AllAsked(ops, s.removed)
  }

  lemma KnownStill(ops: seq<Op>, last: Op, s: State)
    requires AllKnown(ops, s)
    ensures AllKnown(ops + [last], s)
  {
    AskedStill(ops, last, s.delivered);
    AskedStill(ops, last, s.running);
    AskedStill(ops, last, s.removed);
  }

  lemma KnownAfter(ops: seq<Op>, last: Op)
    requires var s := Run(START, ops); Inv(s) && s.now == Ticks(ops) && AllKnown(ops, s) && Allowed(s, last)
    ensures AllKnown(ops + [last], Step(Run(START, ops), last))
  {
    var s := Run(START, ops);
    KnownStill(ops, last, s);
    match last {
      case Tick(_) =>
      case Add(h, timeout) => AskedAdd(ops, h, timeout);
      case Rm(h) =>
      case Event =>
    }
  }

  /**
   * Over every run the clock shows the ticks so far, and each timeout delivered, running or removed is one that
   * was asked for, due exactly as long after that call as it said.
   */
  lemma {:induction false} DueAsAsked(ops: seq<Op>)
    ensures var s := Run(START, ops); s.now == Ticks(ops) && AllKnown(ops, s)
    decreases |ops|
  {
    if ops != [] {
      var before, last := ops[..|ops| - 1], ops[|ops| - 1];
      assert ops == before + [last];
      DueAsAsked(before);
      RunKeeps(START, before);
      RunLast(START, before, last);
      if Allowed(Run(START, before), last) {
        KnownAfter(before, last);
      } else {
        KnownStill(before, last, Run(START, before));
      }
    }
  }

  /** Asking again until there is nothing to report delivers everything that is due, and nothing else. */
  lemma {:induction false} DrainDelivers(s: State, n: nat)
    requires Inv(s) && n == |s.running|
    ensures var r := Drain(s, n);
            && Inv(r) && r.now == s.now
            && (forall i :: 0 <= i < |r.running| ==> r.running[i].due > s.now)
            && r.delivered + r.running == s.delivered + s.running
    decreases n
  {
    if s.running != [] {
      EventKeeps(s);
      if s.running[0].due <= s.now {
        DrainDelivers(Step(s, Event), n - 1);
        assert s.delivered + [s.running[0]] + s.running[1..] == s.delivered + s.running;
      } else {
        var all := s.delivered + s.running;
        forall i | 0 <= i < |s.running| ensures s.running[i].due > s.now {
          assert all[|s.delivered|] == s.running[0] && all[|s.delivered| + i] == s.running[i];
        }
        SameEvent(s, n);
      }
    }
  }

  function Drain(s: State, n: nat): State
    decreases n
  {
    if n == 0 then s else Drain(Step(s, Event), n - 1)
  }

  lemma {:induction false} SameEvent(s: State, n: nat)
    requires s.running == [] || s.running[0].due > s.now
    ensures Drain(s, n) == s
    decreases n
  {
    if n > 0 { SameEvent(s, n - 1); }
  }

  // ---------------------------------------------------------------------------- in place

  /** The difference of two 64-bit instants, narrowed to a signed 32-bit number. */
  function Narrow(due: nat, now: nat): int {
    var d := (due - now) % 0x1_0000_0000_0000_0000 % 0x1_0000_0000;
    if d >= 0x8000_0000 then d - 0x1_0000_0000 else d
  }

  /** How long is left, 0 if nothing is. */
  function Left(due: nat, now: nat): nat {
    if due < now then 0 else due - now
  }

  /** Less than 2^31 ms are left, or the lateness still looks negative in 32 bits. */
  predicate Narrows(due: nat, now: nat) {
    if due >= now then due - now < 0x8000_0000
    else (now - due - 1) % 0x1_0000_0000 < 0x8000_0000 || (now - due) % 0x1_0000_0000 == 0
  }

  /**
   * The narrowed difference is right exactly when less than 2^31 ms are left, and an overdue timeout
   * is late by a number of milliseconds that still looks negative in 32 bits.
   */
  lemma NarrowRight(due: nat, now: nat)
    requires due < 0x1_0000_0000_0000_0000 && now < 0x1_0000_0000_0000_0000
    ensures (if Narrow(due, now) < 0 then 0 else Narrow(due, now)) == Left(due, now) <==> Narrows(due, now)
  {
    var x := due - now;
    if x >= 0 {
      assert x % 0x1_0000_0000_0000_0000 == x;
      assert x < 0x8000_0000 ==> x % 0x1_0000_0000 == x;
    } else {
      assert x % 0x1_0000_0000_0000_0000 == x + 0x1_0000_0000_0000_0000;
      Opposite(-x);
    }
  }

  /** The 32-bit pattern of a negative number. */
  lemma Opposite(y: nat)
    requires 0 < y <= 0x1_0000_0000_0000_0000
    ensures (0x1_0000_0000_0000_0000 - y) % 0x1_0000_0000 == 0xFFFF_FFFF - (y - 1) % 0x1_0000_0000
    ensures y % 0x1_0000_0000 == 0 <==> (y - 1) % 0x1_0000_0000 == 0xFFFF_FFFF
  {
    var q, r := (y - 1) / 0x1_0000_0000, (y - 1) % 0x1_0000_0000;
    assert 0x1_0000_0000_0000_0000 - y == 0x1_0000_0000 * (0xFFFF_FFFF - q) + (0xFFFF_FFFF - r);
  }

  /** nn_timerset over its list of handles. */
  class TimeoutSet {
    var timeouts: seq<Timeout>
    var added: nat

    constructor ()
      ensures timeouts == [] && added == 0
    {
      timeouts, added := [], 0;
    }

    /** nn_timerset_add: 1 exactly when the new timeout is now the first. */
    method Add(now: nat, timeout: nat, h: Handle) returns (first: int)
      requires !Running(timeouts, h)
      modifies this
      ensures added == old(added) + 1
      ensures timeouts == Insert(old(timeouts), Timeout(h, now + timeout, old(added)))
      ensures first == if timeouts[0].handle == h then 1 else 0
    {
      var due := now + timeout;
      var it := 0;
      while it != |timeouts|
        invariant 0 <= it <= |timeouts|
        invariant Place(timeouts, due) == it + Place(timeouts[it..], due)
      {
        if due < timeouts[it].due { break; }
        assert timeouts[it..][1..] == timeouts[it + 1..];
        it := it + 1;
      }
      assert it == Place(timeouts, due);
      first := if it == 0 then 1 else 0;
      assert it > 0 ==> timeouts[0].handle != h;
      timeouts := timeouts[..it] + [Timeout(h, due, added)] + timeouts[it..];
      added := added + 1;
    }

    /** nn_timerset_rm: 1 exactly when the removed timeout was the first. */
    method Rm(h: Handle) returns (first: int)
      requires DistinctHandles(timeouts)
      modifies this`timeouts
      ensures var i := Find(old(timeouts), h);
              && timeouts == (if i == -1 then old(timeouts) else old(timeouts)[..i] + old(timeouts)[i + 1..])
              && first == (if i == 0 then 1 else 0)
      ensures !Running(timeouts, h)
    {
      var i := Find(timeouts, h);
      if i == -1 { return 0; }
      Without(timeouts, i);
      first := if timeouts[0].handle == h then 1 else 0;
      timeouts := timeouts[..i] + timeouts[i + 1..];
    }

    /** nn_timerset_timeout: how long to wait, -1 for ever. */
    method Wait(now: nat) returns (ms: int)
      requires now < 0x1_0000_0000_0000_0000
      requires forall i :: 0 <= i < |timeouts| ==> timeouts[i].due < 0x1_0000_0000_0000_0000
      ensures timeouts == [] <==> ms == -1
      ensures timeouts != [] ==> ms >= 0 && (ms == Left(timeouts[0].due, now) <==> Narrows(timeouts[0].due, now))
    {
      if |timeouts| == 0 { return -1; }
      NarrowRight(timeouts[0].due, now);
      ms := Narrow(timeouts[0].due, now);
      if ms < 0 { ms := 0; }
    }

    /** nn_timerset_event: the first timeout, if it is due. */
    method Event(now: nat) returns (due: bool, h: Handle)
      modifies this`timeouts
      ensures due <==> old(timeouts) != [] && old(timeouts)[0].due <= now
      ensures due ==> h == old(timeouts)[0].handle && timeouts == old(timeouts)[1..]
      ensures !due ==> timeouts == old(timeouts)
    {
      if |timeouts| == 0 { return false, 0; }
      var head := timeouts[0];
      if head.due > now { return false, 0; }
      timeouts := timeouts[1..];
      return true, head.handle;
    }
  }
}
