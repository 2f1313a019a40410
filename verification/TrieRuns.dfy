/**
 * Whole runs of subscriptions and removals on one trie, against a table computed from the history
 * of calls alone.
 */
module TrieRuns {
  import opened Bytes
  import opened Trie
  import opened TrieMeaning
  import opened TrieSubscribe
  import opened TrieUnsubscribe

  datatype Op = Sub(s: seq<byte>) | Unsub(s: seq<byte>)

  function Init(s: seq<Op>): seq<Op>
    requires s != []
  {
    s[..|s| - 1]
  }

  function Last(s: seq<Op>): Op
    requires s != []
  {
    s[|s| - 1]
  }

  // -------------------------------------------------------------------- the table of a history

  /** How often a string is held after a history of calls. */
  ghost function Tally(ops: seq<Op>, x: seq<byte>): int
    decreases |ops|, 0
  {
    if ops == [] then 0
    else
      match Last(ops)
      case Sub(s) =>
        if x == s then (Tally(Init(ops), x) + 1) % REFCOUNT_MOD
        else if TallyLosesOnSub(Init(ops), s, x) then 0
        else Tally(Init(ops), x)
      case Unsub(s) =>
        if x == s then Tally(Init(ops), x) - 1
        else if TallyLosesOnUnsub(Init(ops), s, x) then 0
        else Tally(Init(ops), x)
  }

  ghost predicate TallyBelow(ops: seq<Op>, p: seq<byte>, c: byte)
    decreases |ops|, 1
  {
    exists x :: p + [c] <= x && Tally(ops, x) > 0
  }

  ghost function TallyBranching(ops: seq<Op>, p: seq<byte>): set<byte>
    decreases |ops|, 2
  {
    set c: byte | TallyBelow(ops, p, c)
  }

  ghost predicate TallyLosesOnSub(ops: seq<Op>, s: seq<byte>, p: seq<byte>)
    decreases |ops|, 3
  {
    && ProperPrefix(p, s)
    && |TallyBranching(ops, p)| == SPARSE_MAX
    && !TallyBelow(ops, p, s[|p|])
  }

  ghost predicate TallyLosesOnUnsub(ops: seq<Op>, s: seq<byte>, p: seq<byte>)
    decreases |ops|, 3
  {
    && ProperPrefix(p, s)
    && Tally(ops, s) == 1
    && |TallyBranching(ops, p)| == SPARSE_MAX + 1
    && forall y :: p + [s[|p|]] <= y && Tally(ops, y) > 0 ==> y == s
  }

  /** Only strings that are held are removed. */
  ghost predicate RemovesHeld(ops: seq<Op>) {
    ops != [] ==> RemovesHeld(Init(ops)) && (Last(ops).Unsub? ==> Tally(Init(ops), Last(ops).s) > 0)
  }

  /** Only held strings are removed, and no 32-bit count wraps at a string that no held string extends. */
  ghost predicate Valid(ops: seq<Op>) {
    ops != [] ==>
      && Valid(Init(ops))
      && match Last(ops)
         case Sub(s) => Tally(Init(ops), s) == REFCOUNT_MOD - 1 ==> exists c :: TallyBelow(Init(ops), s, c)
         case Unsub(s) => Tally(Init(ops), s) > 0
  }

  // ------------------------------------------------------------------------------ the real run

  ghost function Step(t: Trie, op: Op): Outcome
    requires WellFormed(t)
  {
    match op
    case Sub(s) => Subscribe(t, s)
    case Unsub(s) => Unsubscribe(t, s)
  }

  /** The trie after a history of calls, starting with no root; the return value is the last call's. */
  ghost function Run(ops: seq<Op>): Outcome {
    if ops == [] then Done(0, Nil)
    else
      var u := Run(Init(ops));
      if u.Done? && WellFormed(u.trie) then Step(u.trie, Last(ops)) else Crash
  }

  lemma SameTally(ops: seq<Op>, t: Trie)
    requires forall x :: Count(t, x) == Tally(ops, x)
    ensures forall p, c :: TallyBelow(ops, p, c) <==> HeldBelow(t, p, c)
    ensures forall p :: TallyBranching(ops, p) == Branching(t, p)
    ensures forall s, x :: TallyLosesOnSub(ops, s, x) <==> LosesOnSubscribe(t, s, x)
    ensures forall s, x :: TallyLosesOnUnsub(ops, s, x) <==> LosesOnUnsubscribe(t, s, x)
  {
    forall p: seq<byte>, c: byte ensures TallyBelow(ops, p, c) <==> HeldBelow(t, p, c) {}
    forall p ensures TallyBranching(ops, p) == Branching(t, p) {}
  }

  /** What a valid run leaves: no crash, the shape, and exactly the counts of the history. */
  ghost predicate Agrees(ops: seq<Op>, r: Outcome) {
    r.Done? && WellFormed(r.trie) && forall x :: Count(r.trie, x) == Tally(ops, x)
  }

  lemma SubAgrees(ops: seq<Op>, u: Trie, s: seq<byte>)
    requires ops != [] && Last(ops) == Sub(s) && Valid(ops) && Agrees(Init(ops), Done(0, u))
    ensures Agrees(ops, Subscribe(u, s))
    ensures Subscribe(u, s).rc == if Tally(Init(ops), s) == 0 then 1 else 0
  {
    SameTally(Init(ops), u);
    SubscribeShape(u, s);
    SubscribeCount(u, s, s);
    forall x ensures Count(Subscribe(u, s).trie, x) == Tally(ops, x) { SubscribeCount(u, s, x); }
  }

  lemma UnsubAgrees(ops: seq<Op>, u: Trie, s: seq<byte>)
    requires ops != [] && Last(ops) == Unsub(s) && Valid(ops) && Agrees(Init(ops), Done(0, u))
    ensures Agrees(ops, Unsubscribe(u, s))
    ensures Unsubscribe(u, s).rc == if Tally(ops, s) == 0 then 1 else 0
  {
    SameTally(Init(ops), u);
    UnsubscribeHeld(u, s);
    var r := Unsubscribe(u, s);
    forall x ensures Count(r.trie, x) == Tally(ops, x) { assert Count(r.trie, x) == AfterUnsubscribe(u, s, x); }
  }

  /**
   * Every valid run succeeds, keeps the shape of the trie, and leaves exactly the counts that the
   * history alone determines; the last call reports a first subscription or a last removal.
   */
  lemma {:induction false} RunMeaning(ops: seq<Op>)
    requires Valid(ops)
    ensures Agrees(ops, Run(ops))
    ensures ops != [] && Last(ops).Sub? ==>
              Run(ops).rc == if Tally(Init(ops), Last(ops).s) == 0 then 1 else 0
    ensures ops != [] && Last(ops).Unsub? ==>
              Run(ops).rc == if Tally(ops, Last(ops).s) == 0 then 1 else 0
    decreases |ops|
  {
    if ops != [] {
      RunMeaning(Init(ops));
      var u := Run(Init(ops)).trie;
      match Last(ops)
      case Sub(s) => SubAgrees(ops, u, s);
      case Unsub(s) => UnsubAgrees(ops, u, s);
    }
  }

  /** A subscription after a valid run keeps the shape exactly when the longer run is valid. */
  lemma SubShape(ops: seq<Op>, u: Trie, s: seq<byte>)
    requires ops != [] && Last(ops) == Sub(s) && Valid(Init(ops)) && Agrees(Init(ops), Done(0, u))
    ensures WellFormed(Subscribe(u, s).trie) <==> Valid(ops)
  {
    SameTally(Init(ops), u);
    SubscribeShape(u, s);
  }

  /** Of the runs that remove only held strings, exactly the valid ones go through and keep the shape. */
  lemma {:induction false} RunKeepsShape(ops: seq<Op>)
    requires RemovesHeld(ops)
    ensures Run(ops).Done? && WellFormed(Run(ops).trie) <==> Valid(ops)
    decreases |ops|
  {
    if Valid(ops) {
      RunMeaning(ops);
    } else {
      RunKeepsShape(Init(ops));
      if Valid(Init(ops)) {
        RunMeaning(Init(ops));
        SubShape(ops, Run(Init(ops)).trie, Last(ops).s);
      }
    }
  }
}
