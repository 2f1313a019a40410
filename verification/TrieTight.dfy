/**
 * No more nodes than needed: where a node that is no subscription has one child only, the two do not fit into one.
 */
module TrieTight {
  import opened Bytes
  import opened Trie
  import opened TrieMeaning
  import opened TrieSubscribe
  import opened TrieUnsubscribe

  /** A node that only leads on to one other. */
  predicate Lone(t: Trie) {
    t.Node? && t.refcount == 0 && t.layout.Sparse? && |t.kids| == 1
  }

  /** Its prefix, the character and the child's prefix make at most ten bytes. */
  predicate Mergeable(t: Trie) {
    Lone(t) && t.kids[0].Node? && |t.prefix| + 1 + |t.kids[0].prefix| <= 10
  }

  predicate Tight(t: Trie)
    decreases t, 1
  {
    t.Node? ==> !Mergeable(t) && AllTight(t.kids)
  }

  predicate AllTight(kids: seq<Trie>)
    decreases kids, 0
  {
    forall i :: 0 <= i < |kids| ==> Tight(kids[i])
  }

  /** nn_node_compact leaves nothing to merge where there was nothing below. */
  lemma CompactTight(t: Trie)
    requires t.Node? && LayoutOk(t.layout, t.kids) && AllTight(t.kids)
    ensures Tight(Compact(t)) && |Compact(t).prefix| >= |t.prefix|
  {
    if Compact(t) != t { assert Tight(t.kids[0]); }
  }

  // ------------------------------------------------------------------------------- removals

  /** What a call leaves: tight, and with a prefix at least as long. */
  ghost predicate Neat(t: Trie, r: Trie)
    requires t.Node?
  {
    Tight(r) && (r.Node? ==> |r.prefix| >= |t.prefix|)
  }

  lemma TightByNext(r: Trie)
    requires r.Node? && LayoutOk(r.layout, r.kids) && forall d :: Tight(Next(r, d))
    ensures AllTight(r.kids)
  {
    forall i | 0 <= i < |r.kids| ensures Tight(r.kids[i]) {
      match r.layout
      case Sparse(chars) =>
        assert IndexOf(chars, chars[i]) == i;
        assert Next(r, chars[i]) == r.kids[i];
      case Dense(min, _, _) =>
        var d: byte := min as int + i;
        assert Next(r, d) == r.kids[i];
    }
  }

  lemma NextTight(t: Trie, d: byte)
    requires t.Node? && Tight(t)
    ensures Tight(Next(t, d))
  {
  }

  lemma FoundTight(t: Trie)
    requires t.Node? && WellFormed(t) && Tight(t) && t.refcount > 0
    ensures Neat(t, Found(t).trie)
  {
    if t.refcount == 1 { CompactTight(t.(refcount := 0)); }
  }

  /** A child replaced by one with a prefix at least as long. */
  lemma ReplacedTight(t: Trie, i: nat, k: Trie)
    requires t.Node? && WellFormed(t) && Tight(t) && i < |t.kids| && t.kids[i].Node?
    requires k.Node? && Neat(t.kids[i], k)
    ensures Neat(t, t.(kids := t.kids[i := k]))
  {
    var r := t.(kids := t.kids[i := k]);
    assert forall j :: 0 <= j < |r.kids| ==> r.kids[j] == if j == i then k else t.kids[j];
  }

  lemma PrunedSparseTight(t: Trie, i: nat)
    requires t.Node? && t.layout.Sparse? && WellFormed(t) && Tight(t) && i < |t.kids|
    ensures Neat(t, Unsubscribed(t, i).trie)
  {
    RemovedFromSparse(t, i);
    var r := WithoutChild(t, i);
    assert forall j :: 0 <= j < |r.kids| ==> r.kids[j] == if j < i then t.kids[j] else t.kids[j + 1];
    CompactTight(r);
  }

  lemma PrunedDenseTight(t: Trie, c: byte)
    requires t.Node? && t.layout.Dense? && WellFormed(t) && Tight(t) && Next(t, c).Node?
    ensures var r := PruneDense(t.(kids := t.kids[Slot(t.layout, c) := Nil]), c);
            r.Done? && Neat(t, r.trie)
  {
    PrunedFromDense(t, c);
    var r := PruneDense(t.(kids := t.kids[Slot(t.layout, c) := Nil]), c).trie;
    forall d: byte ensures Tight(Next(r, d)) { NextTight(t, d); }
    TightByNext(r);
    assert r.layout.Dense? || |r.kids| == SPARSE_MAX;
  }

  /** Removing a held string leaves nothing to merge, if there was nothing before. */
  lemma {:induction false} UnsubscribeTight(t: Trie, s: seq<byte>)
    requires WellFormed(t) && Tight(t) && Count(t, s) > 0
    ensures Unsubscribe(t, s).Done? && Neat(t, Unsubscribe(t, s).trie)
    decreases |s|
  {
    CountCases(t, s);
    if s == t.prefix {
      CountAtPrefix(t);
      FoundTight(t);
      CheckPrefixMeans(t.prefix, s);
    } else {
      UnsubscribeTightDeeper(t, s);
    }
  }

  lemma {:induction false} UnsubscribeTightDeeper(t: Trie, s: seq<byte>)
    requires WellFormed(t) && Tight(t) && Count(t, s) > 0 && s != t.prefix
    ensures Unsubscribe(t, s).Done? && Neat(t, Unsubscribe(t, s).trie)
    decreases |s|, 0
  {
    var n := |t.prefix|;
    var c, tail := s[n], s[n + 1..];
    CutAt(t.prefix, s);
    CountBelow(t, c, tail);
    var k, i := Next(t, c), Slot(t.layout, c);
    NextWellFormed(t, c);
    NextTight(t, c);
    UnsubscribeTight(k, tail);
    UnsubscribeHeld(k, tail);
    CheckPrefixMeans(t.prefix, s);
    assert s[n..][0] == c && s[n..][1..] == tail;
    var sub := Unsubscribe(k, tail);
    assert Unsubscribe(t, s) == Unwind(t, i, c, sub);
    if sub.trie.Node? {
      ReplacedTight(t, i, sub.trie);
    } else if t.layout.Sparse? {
      PrunedSparseTight(t, i);
    } else {
      PrunedDenseTight(t, c);
    }
  }

  // -------------------------------------------------------------------------- subscriptions

  lemma {:induction false} ChainTight(data: seq<byte>)
    ensures Tight(Chain(data))
    decreases |data|
  {
    if |data| > PREFIX_MAX { ChainTight(data[PREFIX_MAX + 1..]); }
  }

  function Nodes(t: Trie): nat {
    if t.Nil? then 0 else 1 + NodesIn(t.kids)
  }

  function NodesIn(kids: seq<Trie>): nat {
    if kids == [] then 0 else Nodes(kids[0]) + NodesIn(kids[1..])
  }

  /** Every new node but the last takes ten bytes and the character behind them. */
  lemma {:induction false} ChainIsShort(data: seq<byte>)
    ensures Nodes(Chain(data)) == |data| / 11 + 1
    decreases |data|
  {
    if |data| > 10 {
      var k := Chain(data[PREFIX_MAX + 1..]);
      ChainIsShort(data[PREFIX_MAX + 1..]);
      assert [k][1..] == [] && NodesIn([k]) == Nodes(k);
      assert (|data| - 11) / 11 + 1 == |data| / 11;
    }
  }

  /**
   * The subscription shortens the prefix of an only child so far that it would fit into its parent, or it makes a
   * count wrap to zero at a node into which its only child fits.
   */
  ghost predicate Loosens(t: Trie, s: seq<byte>)
    requires WellFormed(t)
    decreases |s|
  {
    t.Node? && t.prefix <= s &&
    if |s| == |t.prefix| then t.refcount == REFCOUNT_MOD - 1 && Mergeable(t.(refcount := 0))
    else
      var c, tail := s[|t.prefix|], s[|t.prefix| + 1..];
      var k := Next(t, c);
      NextWellFormed(t, c);
      k.Node? && (Loosens(k, tail) || (Lone(t) && ShortensTo(k.prefix, tail, 9 - |t.prefix|)))
  }

  /** The string leaves the prefix after at most `n` characters. */
  ghost predicate ShortensTo(prefix: seq<byte>, s: seq<byte>, n: int) {
    CheckPrefix(prefix, s) < |prefix| && CheckPrefix(prefix, s) <= n
  }

  lemma SplitTight(t: Trie, s: seq<byte>)
    requires t.Node? && WellFormed(t) && Tight(t) && CheckPrefix(t.prefix, s) < |t.prefix|
    ensures Tight(Subscribe(t, s).trie) && |Subscribe(t, s).trie.prefix| == CheckPrefix(t.prefix, s)
  {
    var pos := CheckPrefix(t.prefix, s);
    var lower := t.(prefix := t.prefix[pos + 1..]);
    CompactTight(lower);
    var u, rest := Split(t, pos), s[pos..];
    if rest != [] {
      ChainTight(rest[1..]);
      var r := AddChild(u, rest[0], Chain(rest[1..]));
      assert r.kids == [Compact(lower), Chain(rest[1..])];
    }
  }

  lemma AddedTight(t: Trie, c: byte, k: Trie)
    requires t.Node? && WellFormed(t) && Tight(t) && Next(t, c).Nil? && k.Node? && WellFormed(k) && Tight(k)
    ensures Tight(AddChild(t, c, k)) && |AddChild(t, c, k).prefix| == |t.prefix|
  {
    AddChildNext(t, c, k);
    var r := AddChild(t, c, k);
    forall d: byte ensures Tight(Next(r, d)) { NextTight(t, d); }
    TightByNext(r);
  }

  lemma ReferTight(t: Trie)
    requires t.Node? && WellFormed(t) && Tight(t)
    ensures Tight(Refer(t).trie) <==> !(t.refcount == REFCOUNT_MOD - 1 && Mergeable(t.(refcount := 0)))
  {
    assert Refer(t).trie.kids == t.kids;
  }

  lemma AllTightReplaced(kids: seq<Trie>, i: nat, k: Trie)
    requires AllTight(kids) && i < |kids|
    ensures AllTight(kids[i := k]) <==> Tight(k)
  {
    assert kids[i := k][i] == k;
    assert forall j :: 0 <= j < |kids| && j != i ==> kids[i := k][j] == kids[j];
  }

  lemma ReplacedLoosens(t: Trie, i: nat, k: Trie)
    requires t.Node? && Tight(t) && i < |t.kids| && k.Node?
    ensures Tight(t.(kids := t.kids[i := k])) <==> Tight(k) && !(Lone(t) && |t.prefix| + 1 + |k.prefix| <= 10)
  {
    AllTightReplaced(t.kids, i, k);
    var r := t.(kids := t.kids[i := k]);
    assert Mergeable(r) <==> Lone(t) && |t.prefix| + 1 + |k.prefix| <= 10;
  }

  /** A subscription leaves something to merge exactly when it shortens or loosens a node in one of these two ways. */
  lemma {:induction false} SubscribeTight(t: Trie, s: seq<byte>)
    requires WellFormed(t) && Tight(t)
    ensures Tight(Subscribe(t, s).trie) <==> !Loosens(t, s)
    ensures t.Node? ==> |Subscribe(t, s).trie.prefix| == CheckPrefix(t.prefix, s)
    decreases |s|
  {
    if t.Nil? {
      ChainTight(s);
    } else {
      CheckPrefixMeans(t.prefix, s);
      if CheckPrefix(t.prefix, s) < |t.prefix| {
        SplitTight(t, s);
      } else if |s| == |t.prefix| {
        assert s[|t.prefix|..] == [];
        ReferTight(t);
      } else {
        SubscribeTightDeeper(t, s);
      }
    }
  }

  lemma SubscribeBelow(t: Trie, s: seq<byte>, c: byte, tail: seq<byte>)
    requires WellFormed(t) && t.Node? && ProperPrefix(t.prefix, s)
    requires c == s[|t.prefix|] && tail == s[|t.prefix| + 1..]
    ensures WellFormed(Next(t, c))
    ensures Next(t, c).Nil? ==> Subscribe(t, s).trie == AddChild(t, c, Chain(tail))
    ensures Next(t, c).Node? ==>
              && 0 <= Slot(t.layout, c) < |t.kids| && t.kids[Slot(t.layout, c)] == Next(t, c)
              && Subscribe(t, s).trie == t.(kids := t.kids[Slot(t.layout, c) := Subscribe(Next(t, c), tail).trie])
  {
    CheckPrefixMeans(t.prefix, s);
    CutAt(t.prefix, s);
    assert s[|t.prefix|..][0] == c && s[|t.prefix|..][1..] == tail;
    NextWellFormed(t, c);
  }

  lemma {:induction false} SubscribeTightDeeper(t: Trie, s: seq<byte>)
    requires WellFormed(t) && Tight(t) && t.Node? && ProperPrefix(t.prefix, s)
    ensures Tight(Subscribe(t, s).trie) <==> !Loosens(t, s)
    ensures |Subscribe(t, s).trie.prefix| == |t.prefix|
    decreases |s|, 0
  {
    var c, tail := s[|t.prefix|], s[|t.prefix| + 1..];
    var k := Next(t, c);
    SubscribeBelow(t, s, c, tail);
    if k.Nil? {
      ChainTight(tail);
      ChainIsOneString(tail);
      AddedTight(t, c, Chain(tail));
    } else {
      NextTight(t, c);
      SubscribeTight(k, tail);
      ReplacedLoosens(t, Slot(t.layout, c), Subscribe(k, tail).trie);
      KidFits(t, k);
    }
  }

  /** In a tight trie an only child does not fit as it is. */
  lemma KidFits(t: Trie, k: Trie)
    requires t.Node? && Tight(t) && k.Node? && (Lone(t) ==> t.kids[0] == k)
    ensures Lone(t) ==> |t.prefix| + 1 + |k.prefix| > 10
  {
  }

  /** A node that only leads on to another, whose prefix is eight bytes 2. */
  const LONE := Node(0, [1, 1, 1, 1, 1], Sparse([6]), [Node(1, [2, 2, 2, 2, 2, 2, 2, 2], Sparse([]), [])])

  /** A subscription that parts from those eight bytes at once leaves an only child that would fit. */
  lemma SubscriptionLoosens()
    ensures WellFormed(LONE) && Tight(LONE) && !Tight(Subscribe(LONE, [1, 1, 1, 1, 1, 6, 9]).trie)
  {
    var k, s := LONE.kids[0], [1, 1, 1, 1, 1, 6, 9];
    assert WellFormed(k) && Tight(k);
    assert IndexOf([6], 6) == 0 && Next(LONE, 6) == k;
    assert s[5] == 6 && s[6..] == [9];
    assert LONE.prefix <= s;
    assert ShortensTo(k.prefix, [9], 4);
    SubscribeTight(LONE, s);
  }
}
