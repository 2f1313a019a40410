/**
 * Matching a message against the subscriptions.
 */
module TrieMatch {
  import opened Bytes
  import opened Trie
  import opened TrieMeaning
  import opened TrieSubscribe

  /** Some held string is a prefix of the message: what a scan of all subscriptions would find. */
  ghost predicate Matches(t: Trie, msg: seq<byte>) {
    exists p :: p <= msg && Count(t, p) > 0
  }

  /** The walk along the message arrives at a node whose string is the whole message. */
  ghost predicate EndsAtNode(t: Trie, msg: seq<byte>)
    decreases |msg|
  {
    t.Node? && t.prefix <= msg &&
    var n := |t.prefix|;
    |msg| == n || EndsAtNode(Next(t, msg[n]), msg[n + 1..])
  }

  lemma MatchesHere(t: Trie, msg: seq<byte>)
    requires t.Node?
    ensures Matches(t, msg) <==>
              && t.prefix <= msg
              && (t.refcount > 0
                  || (|msg| > |t.prefix| && Matches(Next(t, msg[|t.prefix|]), msg[|t.prefix| + 1..])))
  {
    var n := |t.prefix|;
    CountAtPrefix(t);
    if Matches(t, msg) {
      var p :| p <= msg && Count(t, p) > 0;
      CountCases(t, p);
      if |p| > n {
        assert p[n] == msg[n] && p[n + 1..] <= msg[n + 1..];
      } else {
        assert p == t.prefix;
      }
    }
    if t.prefix <= msg && |msg| > n && Matches(Next(t, msg[n]), msg[n + 1..]) {
      var q :| q <= msg[n + 1..] && Count(Next(t, msg[n]), q) > 0;
      CountBelow(t, msg[n], q);
      CutAt(t.prefix, msg);
      SamePrefix(t.prefix + [msg[n]], q, msg[n + 1..]);
      assert t.prefix + [msg[n]] + q <= msg;
    }
  }

  lemma MatchStep(t: Trie, memory: seq<byte>, size: int, pos: nat)
    requires t.Node? && size <= |memory|
    requires Fits(t.prefix, memory, size) && pos == |t.prefix| < |memory|
    ensures MatchMemory(t, memory, size) <==>
              t.refcount > 0 || MatchMemory(Next(t, memory[pos]), memory[pos + 1..], size - pos - 1)
  {
  }

  /** Once the count of remaining bytes has gone below zero the walk matches whatever memory holds. */
  lemma {:induction false} MatchUnbounded(t: Trie, memory: seq<byte>, size: int)
    requires WellFormed(t) && size < 0
    ensures MatchMemory(t, memory, size) <==> Matches(t, memory)
    decreases |memory|
  {
    if t.Node? {
      MatchesHere(t, memory);
      if t.prefix <= memory && |memory| > |t.prefix| {
        var n := |t.prefix|;
        MatchStep(t, memory, size, n);
        MatchUnbounded(Next(t, memory[n]), memory[n + 1..], size - n - 1);
      }
    }
  }

  /**
   * What a match reports: a held string is a prefix of the message, or the walk ends at a node
   * exactly where the message does and goes on to match the bytes behind it.
   */
  lemma {:induction false} MatchReports(t: Trie, memory: seq<byte>, size: nat)
    requires WellFormed(t) && size <= |memory|
    ensures MatchMemory(t, memory, size) <==>
              Matches(t, memory[..size]) || (EndsAtNode(t, memory[..size]) && Matches(t, memory))
    decreases |memory|
  {
    var msg := memory[..size];
    if t.Node? {
      var n := |t.prefix|;
      MatchesHere(t, msg);
      MatchesHere(t, memory);
      if t.prefix <= msg {
        assert t.prefix <= memory;
        if |memory| > n {
          MatchReportsBelow(t, memory, size);
        }
      }
    }
  }

  lemma MatchBehind(t: Trie, memory: seq<byte>)
    requires t.Node? && WellFormed(t) && ProperPrefix(t.prefix, memory)
    ensures MatchMemory(t, memory, |t.prefix|) <==>
              t.refcount > 0 || Matches(Next(t, memory[|t.prefix|]), memory[|t.prefix| + 1..])
  {
    var n := |t.prefix|;
    MatchStep(t, memory, n, n);
    MatchUnbounded(Next(t, memory[n]), memory[n + 1..], -1);
  }

  /** The message ends with the node's prefix: the walk goes on in what follows it. */
  lemma MatchReportsAtEnd(t: Trie, memory: seq<byte>)
    requires t.Node? && WellFormed(t) && ProperPrefix(t.prefix, memory)
    ensures MatchMemory(t, memory, |t.prefix|) <==>
              Matches(t, memory[..|t.prefix|]) || (EndsAtNode(t, memory[..|t.prefix|]) && Matches(t, memory))
  {
    assert memory[..|t.prefix|] == t.prefix;
    MatchesHere(t, t.prefix);
    MatchesHere(t, memory);
    MatchBehind(t, memory);
  }

  lemma {:induction false} MatchReportsBelow(t: Trie, memory: seq<byte>, size: nat)
    requires t.Node? && WellFormed(t) && |t.prefix| <= size <= |memory| && ProperPrefix(t.prefix, memory)
    ensures MatchMemory(t, memory, size) <==>
              Matches(t, memory[..size]) || (EndsAtNode(t, memory[..size]) && Matches(t, memory))
    decreases |memory|, 0
  {
    var n := |t.prefix|;
    if size == n {
      MatchReportsAtEnd(t, memory);
    } else {
      var msg, rest := memory[..size], memory[n + 1..];
      MatchesHere(t, msg);
      MatchesHere(t, memory);
      MatchStep(t, memory, size, n);
      assert msg[n + 1..] == rest[..size - n - 1];
      NextWellFormed(t, memory[n]);
      MatchReports(Next(t, memory[n]), rest, size - n - 1);
    }
  }

  /** Below a node that ends where the message does some string is held. */
  lemma {:induction false} HeldFrom(t: Trie, msg: seq<byte>) returns (tail: seq<byte>)
    requires WellFormed(t) && EndsAtNode(t, msg)
    ensures Count(t, msg + tail) > 0
    decreases |msg|
  {
    if |msg| == |t.prefix| {
      assert msg == t.prefix;
      tail := HeldAtNode(t);
    } else {
      EndsBelow(t, msg);
      var c, rest := msg[|t.prefix|], msg[|t.prefix| + 1..];
      tail := HeldFrom(Next(t, c), rest);
      HeldStep(t, c, rest, tail);
    }
  }

  lemma HeldAtNode(t: Trie) returns (tail: seq<byte>)
    requires t.Node? && WellFormed(t)
    ensures Count(t, t.prefix + tail) > 0
  {
    var x := SomeHeld(t);
    CountCases(t, x);
    tail := x[|t.prefix|..];
    assert x == t.prefix + tail;
  }

  lemma HeldStep(t: Trie, c: byte, rest: seq<byte>, tail: seq<byte>)
    requires t.Node? && Count(Next(t, c), rest + tail) > 0
    ensures Count(t, t.prefix + [c] + rest + tail) > 0
  {
    CountBelow(t, c, rest + tail);
    assert t.prefix + [c] + rest + tail == t.prefix + [c] + (rest + tail);
  }

  lemma EndsBelow(t: Trie, msg: seq<byte>)
    requires WellFormed(t) && EndsAtNode(t, msg) && |msg| > |t.prefix|
    ensures msg == t.prefix + [msg[|t.prefix|]] + msg[|t.prefix| + 1..]
    ensures WellFormed(Next(t, msg[|t.prefix|])) && EndsAtNode(Next(t, msg[|t.prefix|]), msg[|t.prefix| + 1..])
  {
    var n := |t.prefix|;
    CutAt(t.prefix, msg);
    NextWellFormed(t, msg[n]);
  }

  /**
   * Matching agrees with the scan of all subscriptions, whatever bytes follow the message in
   * memory, exactly when some subscription matches anyway or no node ends where the message does.
   */
  lemma MatchIsScan(t: Trie, msg: seq<byte>)
    requires WellFormed(t)
    ensures (forall tail :: MatchMemory(t, msg + tail, |msg|) <==> Matches(t, msg))
            <==> (Matches(t, msg) || !EndsAtNode(t, msg))
  {
    forall tail: seq<byte>
      ensures MatchMemory(t, msg + tail, |msg|) <==>
                Matches(t, msg) || (EndsAtNode(t, msg) && Matches(t, msg + tail))
    {
      assert (msg + tail)[..|msg|] == msg;
      MatchReports(t, msg + tail, |msg|);
    }
    if !Matches(t, msg) && EndsAtNode(t, msg) {
      var tail := HeldFrom(t, msg);
      assert Matches(t, msg + tail);
      assert MatchMemory(t, msg + tail, |msg|);
    }
  }

  /** "AB" and "AC" held. */
  const PAIR := Node(0, [65], Sparse([66, 67]), [LEAF, LEAF])

  lemma PairShape()
    ensures WellFormed(PAIR) && Next(PAIR, 66) == LEAF
  {
    assert WellFormed(LEAF);
    assert AllWellFormed(PAIR.kids);
    assert IndexOf([66, 67], 66) == 0;
  }

  /** With "AB" and "AC" held, the message "A" is delivered when the byte behind it happens to be "B". */
  lemma MatchReadsOn()
    ensures WellFormed(PAIR) && !Matches(PAIR, [65]) && MatchMemory(PAIR, [65, 66], 1)
  {
    PairShape();
    var memory := [65, 66];
    assert memory[..1] == [65] == PAIR.prefix && memory[2..] == [];
    MatchesHere(PAIR, [65]);
    MatchStep(PAIR, memory, 1, 1);
  }

  /** A held string is a prefix of the message, or a node ends where the message does and what follows matches. */
  ghost predicate Passes(t: Trie, msg: seq<byte>, behind: seq<byte>) {
    Matches(t, msg) || (EndsAtNode(t, msg) && Matches(t, msg + behind))
  }

  /** When nothing readable follows the message the walk is the scan of all subscriptions. */
  lemma MatchStopping(t: Trie, msg: seq<byte>)
    requires WellFormed(t)
    ensures MatchMemory(t, msg, |msg|) <==> Matches(t, msg)
  {
    assert msg[..|msg|] == msg;
    MatchReports(t, msg, |msg|);
  }
}
