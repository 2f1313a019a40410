/**
 * Removing a string that is not held: what the call reports where it changes nothing, and exactly
 * when it dereferences NULL or fails an assertion.
 */
module TrieAbsent {
  import opened Bytes
  import opened Trie
  import opened TrieMeaning
  import opened TrieSubscribe
  import opened TrieUnsubscribe
  import opened TrieMatch

  /** The walk of a removal comes to a node with nothing of the string left, or exactly that node's prefix. */
  ghost predicate WalkReaches(t: Trie, s: seq<byte>)
    requires WellFormed(t)
    decreases |s|
  {
    s == [] || (t.Node? && t.prefix <= s &&
                assert AllWellFormed(t.kids);
                var rest := s[|t.prefix|..];
                rest == [] || (Next(t, rest[0]).Node? && WalkReaches(Next(t, rest[0]), rest[1..])))
  }

  /** The walk ends at the root. */
  ghost predicate EndsAtRoot(t: Trie, s: seq<byte>) {
    s == [] || (t.Node? && s == t.prefix)
  }

  /**
   * What a call reports for a string that is not held, where it changes nothing: an error when the walk
   * ends at the root, a removal when it ends at a node below, and 0 otherwise.
   */
  lemma {:induction false} AbsentCode(t: Trie, s: seq<byte>)
    requires WellFormed(t) && Count(t, s) == 0 && !GoesAstray(t, s)
    ensures Unsubscribe(t, s) == Done(if !WalkReaches(t, s) then 0
                                      else if EndsAtRoot(t, s) then -EINVAL else 1, t)
    decreases |s|
  {
    UnsubscribeAbsent(t, s);
    if s != [] {
      CheckPrefixMeans(t.prefix, s);
      if t.prefix <= s {
        if |s| == |t.prefix| {
          assert s == t.prefix;
          CountAtPrefix(t);
        } else {
          AbsentCodeDeeper(t, s);
        }
      }
    } else if t.Node? && t.prefix == [] {
      CountAtPrefix(t);
    }
  }

  lemma {:induction false} AbsentCodeDeeper(t: Trie, s: seq<byte>)
    requires WellFormed(t) && t.Node? && ProperPrefix(t.prefix, s) && Count(t, s) == 0 && !GoesAstray(t, s)
    ensures Unsubscribe(t, s).Done? && Unsubscribe(t, s).rc == if WalkReaches(t, s) then 1 else 0
    decreases |s|, 0
  {
    var n := |t.prefix|;
    var c, tail := s[n], s[n + 1..];
    UnsubscribeAbsent(t, s);
    CutAt(t.prefix, s);
    CheckPrefixMeans(t.prefix, s);
    assert s[n..][0] == c && s[n..][1..] == tail;
    var i := Slot(t.layout, c);
    if i != -1 {
      CountBelow(t, c, tail);
      AbsentCode(t.kids[i], tail);
    }
  }

  /** "XAB", "XAC" and "Y" held. */
  const THREE := Node(0, [], Sparse([88, 89]), [PAIR, LEAF])

  lemma ThreeShape()
    ensures WellFormed(THREE) && WellFormed(PAIR) && Slot(THREE.layout, 88) == 0
  {
    PairShape();
    assert WellFormed(LEAF);
    assert THREE.kids[0] == PAIR && THREE.kids[1] == LEAF;
    assert AllWellFormed(THREE.kids);
    assert IndexOf([88, 89], 88) == 0;
  }

  /** With "XAB" and "XAC" held, a call for "XA" reports a removal although nothing was held and nothing changes. */
  lemma AbsentReportsRemoval()
    ensures WellFormed(THREE) && Count(THREE, [88, 65]) == 0
    ensures Unsubscribe(THREE, [88, 65]) == Done(1, THREE)
  {
    ThreeShape();
    var s := [88, 65];
    assert THREE.prefix <= s && s[0..] == s && s[1..] == [65];
    AbsentCode(PAIR, [65]);
    CheckPrefixMeans([], s);
  }

  // ------------------------------------------------------------------------------- crashes

  /**
   * The walk comes to NULL with data left, or ends at an empty slot of a dense node with the fewest
   * children a dense node can have.
   */
  ghost predicate CrashWalk(t: Trie, s: seq<byte>)
    requires WellFormed(t)
    decreases |s|
  {
    if s == [] then false
    else if t.Nil? then true
    else if !(t.prefix <= s) || |s| == |t.prefix| then false
    else
      var i, tail := Slot(t.layout, s[|t.prefix|]), s[|t.prefix| + 1..];
      assert AllWellFormed(t.kids);
      i != -1 && if t.kids[i].Nil? && tail == [] then t.layout.nbr == SPARSE_MAX + 1 else CrashWalk(t.kids[i], tail)
  }

  /** A removal dereferences NULL, or fails the assertion on eight moved children, exactly for such a walk. */
  lemma {:induction false} UnsubscribeCrashes(t: Trie, s: seq<byte>)
    requires WellFormed(t)
    ensures Unsubscribe(t, s).Crash? <==> CrashWalk(t, s)
    decreases |s|
  {
    if s != [] && t.Node? {
      CheckPrefixMeans(t.prefix, s);
      if t.prefix <= s && |s| > |t.prefix| { CrashesDeeper(t, s); }
    }
  }

  /** What becomes of a call after the recursive one for the child in slot `i`. */
  lemma UnwindCrashes(t: Trie, c: byte, sub: Outcome)
    requires t.Node? && WellFormed(t) && Slot(t.layout, c) != -1
    requires t.kids[Slot(t.layout, c)].Nil? ==> sub.Crash? || sub == Done(-EINVAL, Nil)
    ensures var i := Slot(t.layout, c);
            Unwind(t, i, c, sub).Crash? <==> sub.Crash? || (t.kids[i].Nil? && t.layout.nbr == SPARSE_MAX + 1)
  {
    var i := Slot(t.layout, c);
    if t.kids[i].Nil? {
      assert t.kids[i := Nil] == t.kids;
    } else if t.layout.Dense? {
      PrunedFromDense(t, c);
    }
  }

  lemma {:induction false} CrashesDeeper(t: Trie, s: seq<byte>)
    requires WellFormed(t) && t.Node? && ProperPrefix(t.prefix, s)
    ensures Unsubscribe(t, s).Crash? <==> CrashWalk(t, s)
    decreases |s|, 0
  {
    var n := |t.prefix|;
    var c, tail := s[n], s[n + 1..];
    CutAt(t.prefix, s);
    CheckPrefixMeans(t.prefix, s);
    assert s[n..][0] == c && s[n..][1..] == tail;
    var i := Slot(t.layout, c);
    if i != -1 {
      UnsubscribeCrashes(t.kids[i], tail);
      UnwindCrashes(t, c, Unsubscribe(t.kids[i], tail));
    }
  }

  /** Nothing is held: removing any string but the empty one dereferences NULL. */
  lemma FreshSocketCrashes(s: seq<byte>)
    ensures Unsubscribe(Nil, s).Crash? <==> s != []
    ensures Unsubscribe(Nil, []) == Done(-22, Nil)
  {
  }

  /** The ten slots from 1 to 10, of which slot 5 is empty. */
  const HOLED := Node(0, [], Dense(1, 10, 9), [LEAF, LEAF, LEAF, LEAF, Nil, LEAF, LEAF, LEAF, LEAF, LEAF])

  /** Nine one-byte strings held, and a tenth between them removed: the assertion on eight moved children fails. */
  lemma HoleCrashes()
    ensures WellFormed(HOLED) && Unsubscribe(HOLED, [5]).Crash?
  {
    assert WellFormed(LEAF);
    var left, right := [LEAF, LEAF, LEAF, LEAF], [LEAF, LEAF, LEAF, LEAF, LEAF];
    assert HOLED.kids == left + ([Nil] + right);
    AllNonNil(left);
    AllNonNil(right);
    NonNilConcat(left, [Nil] + right);
    NonNilConcat([Nil], right);
    assert NonNil([Nil]) == 0 + NonNil([Nil][1..]);
    assert WellFormed(HOLED);
    assert [5][1..] == [];
    UnsubscribeCrashes(HOLED, [5]);
  }

  // -------------------------------------------------------------------------- every removal

  /** What a removal takes as matched although nothing of the string is left: the prefix of the node it ends at. */
  ghost function Left(t: Trie, s: seq<byte>): seq<byte>
    requires WellFormed(t)
    decreases |s|
  {
    if t.Nil? then []
    else if s == [] then t.prefix
    else if !(t.prefix <= s) || |s| == |t.prefix| then []
    else
      NextWellFormed(t, s[|t.prefix|]);
      Left(Next(t, s[|t.prefix|]), s[|t.prefix| + 1..])
  }

  /** A call does what it would do for the string that the node it ends at stands for. */
  lemma {:induction false} UnsubscribeWhole(t: Trie, s: seq<byte>)
    requires WellFormed(t)
    ensures Unsubscribe(t, s) == Unsubscribe(t, s + Left(t, s))
    decreases |s|
  {
    if t.Node? && s == [] {
      assert [] + t.prefix == t.prefix;
      CheckPrefixMeans(t.prefix, t.prefix);
    } else if t.Node? && ProperPrefix(t.prefix, s) {
      WholeDeeper(t, s);
    } else {
      assert s + [] == s;
    }
  }

  lemma UnsubscribeStep(t: Trie, s: seq<byte>, c: byte, tail: seq<byte>)
    requires t.Node? && WellFormed(t) && ProperPrefix(t.prefix, s)
    requires c == s[|t.prefix|] && tail == s[|t.prefix| + 1..]
    ensures WellFormed(Next(t, c))
    ensures var i := Slot(t.layout, c);
            Unsubscribe(t, s) == if i == -1 then Done(0, t) else Unwind(t, i, c, Unsubscribe(Next(t, c), tail))
  {
    NextWellFormed(t, c);
    CheckPrefixMeans(t.prefix, s);
    CutAt(t.prefix, s);
    assert s[|t.prefix|..][0] == c && s[|t.prefix|..][1..] == tail;
  }

  lemma JoinedTail(s: seq<byte>, left: seq<byte>, n: nat)
    requires n < |s|
    ensures (s + left)[n] == s[n] && (s + left)[n + 1..] == s[n + 1..] + left && s <= s + left
  {
  }

  lemma {:induction false} WholeDeeper(t: Trie, s: seq<byte>)
    requires t.Node? && WellFormed(t) && ProperPrefix(t.prefix, s)
    ensures Unsubscribe(t, s) == Unsubscribe(t, s + Left(t, s))
    decreases |s|, 0
  {
    var c, tail, left := s[|t.prefix|], s[|t.prefix| + 1..], Left(t, s);
    NextWellFormed(t, c);
    UnsubscribeWhole(Next(t, c), tail);
    JoinedTail(s, left, |t.prefix|);
    UnsubscribeStep(t, s, c, tail);
    UnsubscribeStep(t, s + left, c, tail + left);
  }

  /** The walk ends at an empty slot of a dense node with more children than it takes to be dense. */
  ghost predicate MeetsHole(t: Trie, s: seq<byte>)
    requires WellFormed(t)
    decreases |s|
  {
    t.Node? && ProperPrefix(t.prefix, s) &&
    var i, tail := Slot(t.layout, s[|t.prefix|]), s[|t.prefix| + 1..];
    assert AllWellFormed(t.kids);
    i != -1 && if t.kids[i].Nil? then tail == [] && t.layout.nbr > SPARSE_MAX + 1 else MeetsHole(t.kids[i], tail)
  }

  lemma LeftThrough(t: Trie, s: seq<byte>, c: byte, tail: seq<byte>)
    requires t.Node? && WellFormed(t) && ProperPrefix(t.prefix, s)
    requires c == s[|t.prefix|] && tail == s[|t.prefix| + 1..]
    ensures WellFormed(Next(t, c)) && Left(t, s) == Left(Next(t, c), tail)
    ensures Count(t, s + Left(t, s)) == Count(Next(t, c), tail + Left(Next(t, c), tail))
  {
    NextWellFormed(t, c);
    var left := Left(t, s);
    CutAt(t.prefix, s);
    assert s + left == t.prefix + [c] + (tail + left);
    CountBelow(t, c, tail + left);
  }

  /** The three ways for a call to change a trie that does not hold its string. */
  lemma {:induction false} StrayKinds(t: Trie, s: seq<byte>)
    requires WellFormed(t) && GoesAstray(t, s)
    ensures Count(t, s + Left(t, s)) > 0 || CrashWalk(t, s) || MeetsHole(t, s)
    decreases |s|
  {
    if s == [] {
      assert [] + t.prefix == t.prefix;
      CountAtPrefix(t);
    } else if t.Node? {
      StrayDeeper(t, s);
    }
  }

  lemma {:induction false} StrayDeeper(t: Trie, s: seq<byte>)
    requires WellFormed(t) && t.Node? && ProperPrefix(t.prefix, s) && GoesAstray(t, s)
    ensures Count(t, s + Left(t, s)) > 0 || CrashWalk(t, s) || MeetsHole(t, s)
    decreases |s|, 0
  {
    var c, tail := s[|t.prefix|], s[|t.prefix| + 1..];
    var k := t.kids[Slot(t.layout, c)];
    if k.Node? {
      StrayKinds(k, tail);
      LeftThrough(t, s, c, tail);
    }
  }

  /** Where the call ends at a node with a prefix of its own, its string is not held. */
  lemma {:induction false} LeftMeansAbsent(t: Trie, s: seq<byte>)
    requires WellFormed(t) && Left(t, s) != []
    ensures Count(t, s) == 0
    decreases |s|
  {
    if s != [] {
      var n := |t.prefix|;
      CutAt(t.prefix, s);
      NextWellFormed(t, s[n]);
      CountBelow(t, s[n], s[n + 1..]);
      LeftMeansAbsent(Next(t, s[n]), s[n + 1..]);
    }
  }

  /** A child is counted out that was not there: what is held is the same, and the shape is lost. */
  ghost predicate Miscounted(t: Trie, r: Outcome) {
    r.Done? && r.rc == 1 && r.trie.Node? && !WellFormed(r.trie) && forall x :: Count(r.trie, x) == Count(t, x)
  }

  lemma HoleMiscounts(t: Trie, c: byte)
    requires t.Node? && WellFormed(t) && t.layout.Dense? && t.layout.nbr > SPARSE_MAX + 1
    requires 0 <= Slot(t.layout, c) < |t.kids| && t.kids[Slot(t.layout, c)].Nil?
    ensures Miscounted(t, Unwind(t, Slot(t.layout, c), c, Done(-EINVAL, Nil)))
  {
    var i := Slot(t.layout, c);
    assert t.kids[i := Nil] == t.kids;
    var r := t.(layout := t.layout.(nbr := t.layout.nbr - 1));
    assert Unwind(t, i, c, Done(-EINVAL, Nil)) == Done(1, r);
    forall x ensures Count(r, x) == Count(t, x) {
      CountWithKid(t, r, c, Next(t, c), x);
      CountCases(t, x);
      if x == t.prefix { CountAtPrefix(t); }
    }
  }

  lemma MiscountedKid(t: Trie, c: byte, sub: Outcome)
    requires t.Node? && WellFormed(t) && Next(t, c).Node? && Miscounted(Next(t, c), sub)
    ensures Miscounted(t, Unwind(t, Slot(t.layout, c), c, sub))
  {
    NextWellFormed(t, c);
    var i := Slot(t.layout, c);
    var r := t.(kids := t.kids[i := sub.trie]);
    ReplacedKid(t, c, sub.trie);
    assert r.kids[i] == sub.trie;
    forall x ensures Count(r, x) == Count(t, x) {
      CountWithKid(t, r, c, sub.trie, x);
      CountCases(t, x);
      if x == t.prefix { CountAtPrefix(t); }
    }
  }

  lemma {:induction false} HoleResult(t: Trie, s: seq<byte>)
    requires WellFormed(t) && MeetsHole(t, s)
    ensures Miscounted(t, Unsubscribe(t, s))
    decreases |s|
  {
    var n := |t.prefix|;
    var c, tail := s[n], s[n + 1..];
    var i := Slot(t.layout, c);
    CheckPrefixMeans(t.prefix, s);
    assert s[n..][0] == c && s[n..][1..] == tail;
    if t.kids[i].Nil? {
      HoleMiscounts(t, c);
    } else {
      NextWellFormed(t, c);
      HoleResult(t.kids[i], tail);
      MiscountedKid(t, c, Unsubscribe(t.kids[i], tail));
    }
  }

  /**
   * Every removal: it removes the string that the node it ends at stands for, if that is held; otherwise it
   * crashes, counts out a child that is not there, or changes nothing.
   */
  lemma EveryRemoval(t: Trie, s: seq<byte>)
    requires WellFormed(t)
    ensures var whole, r := s + Left(t, s), Unsubscribe(t, s);
            if Count(t, whole) > 0 then Removed(t, whole, r)
            else if CrashWalk(t, s) then r.Crash?
            else if MeetsHole(t, s) then Miscounted(t, r)
            else r == Done(if !WalkReaches(t, s) then 0 else if EndsAtRoot(t, s) then -EINVAL else 1, t)
  {
    var whole := s + Left(t, s);
    if Count(t, whole) > 0 {
      UnsubscribeWhole(t, s);
      UnsubscribeHeld(t, whole);
    } else if CrashWalk(t, s) {
      UnsubscribeCrashes(t, s);
    } else if MeetsHole(t, s) {
      HoleResult(t, s);
    } else {
      if GoesAstray(t, s) { StrayKinds(t, s); }
      if Left(t, s) != [] { LeftMeansAbsent(t, s); } else { assert whole == s; }
      AbsentCode(t, s);
    }
  }
}
