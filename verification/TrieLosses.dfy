/**
 * The two layout conversions drop the converted node's own reference count.  Exactly when a call
 * changes the table for its own string alone, and an input of each kind for which it does not.
 */
module TrieLosses {
  import opened Bytes
  import opened Trie
  import opened TrieMeaning
  import opened TrieSubscribe
  import opened TrieUnsubscribe

  /** A subscription touches its own string only, exactly when no held string branches into eight others. */
  lemma SubscribeIsLocal(t: Trie, s: seq<byte>)
    requires WellFormed(t)
    ensures (forall x :: x != s ==> Count(Subscribe(t, s).trie, x) == Count(t, x)) <==>
            (forall p :: LosesOnSubscribe(t, s, p) ==> Count(t, p) == 0)
  {
    forall x ensures Count(Subscribe(t, s).trie, x) == AfterSubscribe(t, s, x) { SubscribeCount(t, s, x); }
    if p :| LosesOnSubscribe(t, s, p) && Count(t, p) != 0 {
      assert Count(Subscribe(t, s).trie, p) != Count(t, p);
    }
  }

  /** A removal touches its own string only, exactly when no held string loses the ninth of its branches. */
  lemma UnsubscribeIsLocal(t: Trie, s: seq<byte>)
    requires WellFormed(t) && Count(t, s) > 0
    ensures Unsubscribe(t, s).Done?
    ensures (forall x :: x != s ==> Count(Unsubscribe(t, s).trie, x) == Count(t, x)) <==>
            (forall p :: LosesOnUnsubscribe(t, s, p) ==> Count(t, p) == 0)
  {
    UnsubscribeHeld(t, s);
    var r := Unsubscribe(t, s);
    if p :| LosesOnUnsubscribe(t, s, p) && Count(t, p) != 0 {
      assert Count(r.trie, p) == AfterUnsubscribe(t, s, p) != Count(t, p);
    }
    if x :| x != s && Count(r.trie, x) != Count(t, x) {
      assert Count(r.trie, x) == AfterUnsubscribe(t, s, x);
    }
  }

  /** "", and the eight one-byte strings 1 to 8. */
  const EIGHT := Node(1, [], Sparse([1, 2, 3, 4, 5, 6, 7, 8]), [LEAF, LEAF, LEAF, LEAF, LEAF, LEAF, LEAF, LEAF])

  lemma EightShape()
    ensures WellFormed(EIGHT)
  {
    assert WellFormed(LEAF);
    assert forall i :: 0 <= i < 8 ==> EIGHT.layout.chars[i] == i + 1;
    assert forall i :: 0 <= i < 8 ==> EIGHT.kids[i] == LEAF;
  }

  /** A ninth branch makes the node dense: the subscription to the empty string is gone. */
  lemma NinthBranchForgets()
    ensures WellFormed(EIGHT) && Count(EIGHT, []) == 1
    ensures Count(Subscribe(EIGHT, [9]).trie, []) == 0
  {
    EightShape();
    CountAtPrefix(EIGHT);
    assert Next(EIGHT, 9).Nil? by {
      assert forall i :: 0 <= i < 8 ==> EIGHT.layout.chars[i] == i + 1;
    }
    assert ProperPrefix([], [9]) && [9][|EIGHT.prefix|] == 9;
    LosesHere(EIGHT, [9], []);
    SubscribeCount(EIGHT, [9], []);
  }

  /** "", and the nine one-byte strings 1 to 9. */
  const NINE := Node(1, [], Dense(1, 9, 9), [LEAF, LEAF, LEAF, LEAF, LEAF, LEAF, LEAF, LEAF, LEAF])

  lemma NineShape()
    ensures WellFormed(NINE) && Next(NINE, 9) == LEAF && NonNil(NINE.kids) == 9
  {
    AllNonNil(NINE.kids);
    assert WellFormed(LEAF);
  }

  lemma LeafHolds(z: seq<byte>)
    ensures Count(LEAF, z) == if z == [] then 1 else 0
  {
    CountCases(LEAF, z);
  }

  lemma NineHolds()
    ensures Count(NINE, []) == 1 && Count(NINE, [9]) == 1
  {
    NineShape();
    CountAtPrefix(NINE);
    CountBelow(NINE, 9, []);
    LeafHolds([]);
    assert [] + [9] + [] == [9];
  }

  /** Removing one of nine branches makes the node sparse: the subscription to the empty string is gone. */
  lemma EighthBranchForgets()
    ensures WellFormed(NINE) && Count(NINE, []) == 1 && Count(NINE, [9]) == 1
    ensures Unsubscribe(NINE, [9]).Done? && Count(Unsubscribe(NINE, [9]).trie, []) == 0
  {
    NineShape();
    NineHolds();
    assert [] + [9] + [] == [9];
    forall z ensures Count(LEAF, z) == if z == [] then 1 else 0 { LeafHolds(z); }
    LosesAtPrefix(NINE, 9, []);
    UnsubscribeHeld(NINE, [9]);
    assert Count(Unsubscribe(NINE, [9]).trie, []) == AfterUnsubscribe(NINE, [9], []);
  }
}
