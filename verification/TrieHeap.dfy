/**
 * The subscription trie as linked nodes updated in place.
 *
 * Every node owns the nodes below it (`repr`) and carries, as a ghost, the value it stands for
 * (`tree`).  The methods follow the C code; each is proved to compute the function of module Trie
 * that describes it.  The pointer-to-pointer cursor becomes the returned node, which the caller
 * stores back into the slot it came from.
 */
module TrieHeap {
  import opened Bytes
  import opened Trie
  import T = Trie
  import opened TrieMeaning
  import TrieSubscribe
  import TrieUnsubscribe
  import TrieMatch
  import TrieAbsent
  import opened Wrappers

  class TrieNode {
    var refcount: nat
    var prefix: seq<byte>
    var layout: Layout
    var kids: seq<TrieNode?>

    ghost var repr: set<TrieNode>
    ghost var tree: Trie

    ghost predicate Valid()
      reads this, repr
      ensures Valid() ==> this in repr && tree.Node? && |tree.kids| == |kids|
      decreases repr, 0
    {
      && this in repr
      && tree.Node?
      && tree.refcount == refcount && tree.prefix == prefix && tree.layout == layout
      && Owned(kids, tree.kids, repr - {this}, -1)
    }

    /** A new node over children that already exist. */
    constructor (refcount: nat, prefix: seq<byte>, layout: Layout, kids: seq<TrieNode?>,
                 ghost trees: seq<Trie>, ghost below: set<TrieNode>)
      requires Owned(kids, trees, below, -1)
      ensures Valid() && repr == {this} + below && fresh(this)
      ensures tree == Node(refcount, prefix, layout, trees)
      ensures this.refcount == refcount && this.prefix == prefix && this.layout == layout && this.kids == kids
    {
      this.refcount, this.prefix, this.layout, this.kids := refcount, prefix, layout, kids;
      this.repr, this.tree := {this} + below, Node(refcount, prefix, layout, trees);
      new;
      assert repr - {this} == below;
    }

    /** Overwrite a node in place, as a reallocation does. */
    method Become(refcount: nat, prefix: seq<byte>, layout: Layout, kids: seq<TrieNode?>,
                  ghost trees: seq<Trie>, ghost below: set<TrieNode>)
      requires Owned(kids, trees, below, -1) && this !in below
      modifies this
      ensures Valid() && repr == {this} + below
      ensures tree == Node(refcount, prefix, layout, trees)
      ensures this.refcount == refcount && this.prefix == prefix && this.layout == layout && this.kids == kids
    {
      this.refcount, this.prefix, this.layout, this.kids := refcount, prefix, layout, kids;
      this.repr, this.tree := {this} + below, Node(refcount, prefix, layout, trees);
      assert repr - {this} == below;
    }
  }

  /**
   * The children stand for `trees`, lie in `below` and share no node.  Slot `hole` is exempt: -1
   * for none.
   */
  ghost predicate Owned(kids: seq<TrieNode?>, trees: seq<Trie>, below: set<TrieNode>, hole: int)
    reads below
    decreases below, 1
  {
    && |trees| == |kids|
    && (forall i :: 0 <= i < |kids| && i != hole && kids[i] == null ==> trees[i] == Nil)
    && (forall i :: 0 <= i < |kids| && i != hole && kids[i] != null ==>
          kids[i] in below && kids[i].repr <= below && kids[i].Valid() && trees[i] == kids[i].tree)
    && (forall i, j :: 0 <= i < j < |kids| && i != hole && j != hole && kids[i] != null && kids[j] != null ==>
          kids[i].repr !! kids[j].repr)
  }

  ghost function TreeOf(n: TrieNode?): Trie
    reads n
  {
    if n == null then Nil else n.tree
  }

  ghost function ReprOf(n: TrieNode?): set<TrieNode>
    reads n
  {
    if n == null then {} else n.repr
  }

  ghost predicate ValidOf(n: TrieNode?)
    reads n, ReprOf(n)
  {
    n != null ==> n.Valid()
  }

  /** Set one child aside: what is left is untouched by changes to that child. */
  lemma Detach(kids: seq<TrieNode?>, trees: seq<Trie>, below: set<TrieNode>, i: nat)
    requires Owned(kids, trees, below, -1) && i < |kids|
    ensures ValidOf(kids[i]) && TreeOf(kids[i]) == trees[i] && ReprOf(kids[i]) <= below
    ensures Owned(kids, trees, below - ReprOf(kids[i]), i)
  {
  }

  /** Put a child into the slot that was set aside. */
  lemma Attach(kids: seq<TrieNode?>, trees: seq<Trie>, below: set<TrieNode>, i: nat, k: TrieNode?)
    requires i < |kids| && Owned(kids, trees, below, i)
    requires ValidOf(k) && ReprOf(k) !! below
    ensures Owned(kids[i := k], trees[i := TreeOf(k)], below + ReprOf(k), -1)
  {
  }

  lemma OneKid(k: TrieNode)
    requires k.Valid()
    ensures Owned([k], [k.tree], k.repr, -1)
  {
  }

  lemma Appended(kids: seq<TrieNode?>, trees: seq<Trie>, below: set<TrieNode>, k: TrieNode)
    requires Owned(kids, trees, below, -1) && k.Valid() && k.repr !! below
    ensures Owned(kids + [k], trees + [k.tree], below + k.repr, -1)
  {
  }

  lemma Padded(a: nat, kids: seq<TrieNode?>, trees: seq<Trie>, below: set<TrieNode>, b: nat)
    requires Owned(kids, trees, below, -1)
    ensures Owned(Nulls(a) + kids + Nulls(b), Nils(a) + trees + Nils(b), below, -1)
  {
  }

  lemma Sliced(kids: seq<TrieNode?>, trees: seq<Trie>, below: set<TrieNode>, a: nat, b: nat)
    requires Owned(kids, trees, below, -1) && a <= b <= |kids|
    ensures Owned(kids[a..b], trees[a..b], below, -1)
  {
  }

  lemma WithoutKid(kids: seq<TrieNode?>, trees: seq<Trie>, below: set<TrieNode>, i: nat)
    requires Owned(kids, trees, below, -1) && i < |kids|
    ensures Owned(kids[..i] + kids[i + 1..], trees[..i] + trees[i + 1..], below, -1)
  {
  }

  function Nulls(n: nat): (s: seq<TrieNode?>)
    ensures |s| == n && forall i :: 0 <= i < n ==> s[i] == null
  {
    seq(n, _ => null)
  }

  // -------------------------------------------------------------------------------- readers

  lemma AgreeOnce(prefix: seq<byte>, data: seq<byte>, n: nat)
    requires Agree(prefix, data, n)
    ensures n == CheckPrefix(prefix, data)
  {
  }

  method CheckPrefixOf(n: TrieNode, data: seq<byte>) returns (i: nat)
    ensures i == CheckPrefix(n.prefix, data)
  {
    i := 0;
    while i != |n.prefix| && |data| != i && n.prefix[i] == data[i]
      invariant i <= |n.prefix| && i <= |data| && n.prefix[..i] == data[..i]
    {
      i := i + 1;
    }
    AgreeOnce(n.prefix, data, i);
  }

  method FindChar(chars: seq<byte>, c: byte) returns (i: int)
    ensures i == IndexOf(chars, c)
  {
    i := 0;
    while i != |chars|
      invariant 0 <= i <= |chars| && forall j :: 0 <= j < i ==> chars[j] != c
    {
      if chars[i] == c { return; }
      i := i + 1;
    }
    i := -1;
  }

  method NextIndex(n: TrieNode, c: byte) returns (i: int)
    ensures i == Slot(n.layout, c)
  {
    match n.layout
    case Sparse(chars) => i := FindChar(chars, c);
    case Dense(min, max, _) => i := if c < min || c > max then -1 else c - min;
  }

  // -------------------------------------------------------------------------- restructuring

  method CompactNode(self: TrieNode) returns (r: TrieNode)
    requires self.Valid() && LayoutOk(self.tree.layout, self.tree.kids)
    modifies self.repr
    ensures r.Valid() && r.repr <= old(self.repr)
    ensures r.tree == Compact(old(self.tree))
  {
    if self.refcount != 0 || self.layout.Dense? || |self.kids| != 1 { return self; }
    var ch := self.kids[0];
    Detach(self.kids, self.tree.kids, self.repr - {self}, 0);
    if |self.prefix| + |ch.prefix| + 1 > PREFIX_MAX { return self; }
    ch.Become(ch.refcount, self.prefix + [self.layout.chars[0]] + ch.prefix, ch.layout, ch.kids,
              ch.tree.kids, ch.repr - {ch});
    return ch;
  }

  // ------------------------------------------------------------------------------ subscribe

  /** Step 4: new nodes for the rest of the subscription; step 5 counts the last one. */
  method NewChain(data: seq<byte>) returns (r: TrieNode)
    ensures r.Valid() && fresh(r.repr)
    ensures r.tree == Chain(data)
    decreases |data|
  {
    if |data| > PREFIX_MAX {
      var below := NewChain(data[PREFIX_MAX + 1..]);
      OneKid(below);
      r := new TrieNode(0, data[..PREFIX_MAX], Sparse([data[PREFIX_MAX]]), [below], [below.tree], below.repr);
    } else {
      r := new TrieNode(1, data, Sparse([]), [], [], {});
    }
  }

  method WidenNode(n: TrieNode, c: byte)
    requires n.Valid() && n.layout.Dense? && LayoutOk(n.tree.layout, n.tree.kids)
    modifies n
    ensures n.Valid() && n.repr == old(n.repr)
    ensures n.tree == Widen(old(n.tree), c)
  {
    var Dense(min, max, nbr) := n.layout;
    if c < min || c > max {
      var newMin := if min < c then min else c;
      var newMax := if max > c then max else c;
      Padded(min - newMin, n.kids, n.tree.kids, n.repr - {n}, newMax - max);
      n.Become(n.refcount, n.prefix, Dense(newMin, newMax, nbr), Nulls(min - newMin) + n.kids + Nulls(newMax - max),
               Nils(min - newMin) + n.tree.kids + Nils(newMax - max), n.repr - {n});
    } else {
      assert Nils(0) + n.tree.kids + Nils(0) == n.tree.kids;
    }
  }

  lemma MinOfIs(chars: seq<byte>, c: byte, m: byte)
    requires m <= c && forall i :: 0 <= i < |chars| ==> m <= chars[i]
    requires m == c || m in chars
    ensures m == MinOf(chars, c)
  {
    if m in chars { var i :| 0 <= i < |chars| && chars[i] == m; }
    var k := MinOf(chars, c);
    if k in chars { var i :| 0 <= i < |chars| && chars[i] == k; }
  }

  lemma MaxOfIs(chars: seq<byte>, c: byte, m: byte)
    requires c <= m && forall i :: 0 <= i < |chars| ==> chars[i] <= m
    requires m == c || m in chars
    ensures m == MaxOf(chars, c)
  {
    if m in chars { var i :| 0 <= i < |chars| && chars[i] == m; }
    var k := MaxOf(chars, c);
    if k in chars { var i :| 0 <= i < |chars| && chars[i] == k; }
  }

  /** The range of characters a dense node must cover. */
  method CharRangeOf(chars: seq<byte>, c: byte) returns (newMin: byte, newMax: byte)
    ensures newMin == MinOf(chars, c) && newMax == MaxOf(chars, c)
  {
    newMin, newMax := 255, 0;
    for i := 0 to |chars|
      invariant forall j :: 0 <= j < i ==> newMin <= chars[j] <= newMax
      invariant newMin == 255 || newMin in chars[..i]
      invariant newMax == 0 || newMax in chars[..i]
    {
      var c2 := chars[i];
      newMin := if newMin < c2 then newMin else c2;
      newMax := if newMax > c2 then newMax else c2;
      assert chars[..i + 1] == chars[..i] + [c2];
    }
    assert chars[..|chars|] == chars;
    newMin := if newMin < c then newMin else c;
    newMax := if newMax > c then newMax else c;
    MinOfIs(chars, c, newMin);
    MaxOfIs(chars, c, newMax);
  }

  /** What a sparse node's children are when laid out by character. */
  ghost predicate Laid(chars: seq<byte>, kids: seq<TrieNode?>, slots: seq<TrieNode?>, lo: nat, done: nat) {
    && |chars| == |kids|
    && forall j :: 0 <= j < |slots| && lo + j < 256 ==>
         var m := IndexOf(chars, lo + j);
         slots[j] == if 0 <= m < done then kids[m] else null
  }

  method SpreadKids(chars: seq<byte>, kids: seq<TrieNode?>, lo: byte, size: nat) returns (slots: seq<TrieNode?>)
    requires Distinct(chars) && |chars| == |kids|
    requires lo as int + size <= 256 && forall c :: c in chars ==> lo <= c < lo as int + size
    ensures |slots| == size && Laid(chars, kids, slots, lo, |chars|)
  {
    slots := Nulls(size);
    for i := 0 to |chars|
      invariant |slots| == size && Laid(chars, kids, slots, lo, i)
    {
      assert chars[i] in chars;
      slots := slots[chars[i] as int - lo := kids[i]];
    }
  }

  /** The laid-out slots own what the sparse children owned. */
  lemma LaidOwned(n: TrieNode, slots: seq<TrieNode?>, lo: nat)
    requires n.Valid() && n.layout.Sparse? && |n.layout.chars| == |n.kids| && lo + |slots| <= 256
    requires Laid(n.layout.chars, n.kids, slots, lo, |n.kids|)
    ensures Owned(slots, Spread(n.tree, lo, |slots|), n.repr - {n}, -1)
  {
  }

  /** A full sparse node gives its children to a new dense node, whose count starts at zero. */
  method ConvertToDense(n: TrieNode, c: byte, k: TrieNode) returns (r: TrieNode)
    requires n.Valid() && n.layout.Sparse? && LayoutOk(n.tree.layout, n.tree.kids) && Next(n.tree, c).Nil?
    requires k.Valid() && k.repr !! n.repr
    ensures r.Valid() && r.repr <= n.repr + k.repr + {r} && fresh(r)
    ensures r.tree == ToDense(n.tree, c, k.tree)
  {
    var chars := n.layout.chars;
    var lo, hi := CharRangeOf(chars, c);
    forall d | d in chars ensures lo <= d <= hi { var i :| 0 <= i < |chars| && chars[i] == d; }
    var slots := SpreadKids(chars, n.kids, lo, hi as int - lo + 1);
    ghost var trees := Spread(n.tree, lo, |slots|);
    LaidOwned(n, slots, lo);
    Detach(slots, trees, n.repr - {n}, c as int - lo);
    Attach(slots, trees, n.repr - {n} - ReprOf(slots[c as int - lo]), c as int - lo, k);
    r := new TrieNode(0, n.prefix, Dense(lo, hi, |chars| + 1), slots[c as int - lo := k],
                      trees[c as int - lo := k.tree], n.repr - {n} - ReprOf(slots[c as int - lo]) + k.repr);
  }

  /** Store a child into a slot of a node whose other children have not changed. */
  method SetKid(n: TrieNode, i: nat, k: TrieNode?, ghost trees: seq<Trie>, ghost below: set<TrieNode>)
    requires i < |n.kids| && Owned(n.kids, trees, below, i) && n !in below
    requires ValidOf(k) && ReprOf(k) !! below && n !in ReprOf(k)
    modifies n
    ensures n.Valid() && n.repr == {n} + below + ReprOf(k)
    ensures n.tree == Node(old(n.refcount), old(n.prefix), old(n.layout), trees[i := old(TreeOf(k))])
    ensures n.refcount == old(n.refcount) && n.prefix == old(n.prefix) && n.layout == old(n.layout)
    ensures n.kids == old(n.kids)[i := k]
  {
    Attach(n.kids, trees, below, i, k);
    n.Become(n.refcount, n.prefix, n.layout, n.kids[i := k], trees[i := TreeOf(k)], below + ReprOf(k));
  }

  /** Put a child into an empty slot of a dense node. */
  method FillSlot(n: TrieNode, i: nat, k: TrieNode)
    requires n.Valid() && n.layout.Dense? && i < |n.kids| && n.tree.kids[i].Nil?
    requires k.Valid() && k.repr !! n.repr
    modifies n
    ensures n.Valid() && n.repr == old(n.repr) + k.repr
    ensures n.tree == old(n.tree).(layout := old(n.layout).(nbr := old(n.layout.nbr) + 1),
                                   kids := old(n.tree.kids)[i := k.tree])
  {
    ghost var trees, below := n.tree.kids, n.repr - {n};
    Detach(n.kids, trees, below, i);
    assert n.kids[i] == null;
    n.layout := n.layout.(nbr := n.layout.nbr + 1);
    SetKid(n, i, k, trees, below);
  }

  method FillDense(n: TrieNode, c: byte, k: TrieNode)
    requires n.Valid() && n.layout.Dense? && LayoutOk(n.tree.layout, n.tree.kids) && Next(n.tree, c).Nil?
    requires k.Valid() && k.repr !! n.repr
    modifies n
    ensures n.Valid() && n.repr == old(n.repr) + k.repr
    ensures n.tree == AddChild(old(n.tree), c, k.tree)
  {
    WidenNode(n, c);
    TrieSubscribe.WidenShape(old(n.tree), c);
    assert Next(n.tree, c) == n.tree.kids[c as int - n.layout.min];
    FillSlot(n, c as int - n.layout.min, k);
  }

  method AddChildNode(n: TrieNode, c: byte, k: TrieNode) returns (r: TrieNode)
    requires n.Valid() && LayoutOk(n.tree.layout, n.tree.kids) && Next(n.tree, c).Nil?
    requires k.Valid() && k.repr !! n.repr
    modifies n
    ensures r.Valid() && fresh(r.repr - old(n.repr) - old(k.repr))
    ensures r.tree == AddChild(old(n.tree), c, old(k.tree))
  {
    match n.layout {
      case Sparse(chars) =>
        if |chars| < SPARSE_MAX {
          Appended(n.kids, n.tree.kids, n.repr - {n}, k);
          n.Become(n.refcount, n.prefix, Sparse(chars + [c]), n.kids + [k], n.tree.kids + [k.tree],
                   n.repr - {n} + k.repr);
          r := n;
        } else {
          r := ConvertToDense(n, c, k);
        }
      case Dense(_, _, _) =>
        FillDense(n, c, k);
        r := n;
    }
  }

  method SplitNode(ch: TrieNode, pos: nat) returns (r: TrieNode)
    requires ch.Valid() && LayoutOk(ch.tree.layout, ch.tree.kids) && pos < |ch.prefix|
    modifies ch.repr
    ensures r.Valid() && fresh(r.repr - old(ch.repr))
    ensures r.tree == Split(old(ch.tree), pos)
  {
    var upper, c := ch.prefix[..pos], ch.prefix[pos];
    ch.Become(ch.refcount, ch.prefix[pos + 1..], ch.layout, ch.kids, ch.tree.kids, ch.repr - {ch});
    var lower := CompactNode(ch);
    OneKid(lower);
    r := new TrieNode(0, upper, Sparse([c]), [lower], [lower.tree], lower.repr);
  }

  /** Steps 3 to 5 at the node where the walk ends. */
  method ExtendNode(n: TrieNode, rest: seq<byte>) returns (r: TrieNode, rc: int)
    requires n.Valid() && LayoutOk(n.tree.layout, n.tree.kids)
    requires rest != [] ==> Next(n.tree, rest[0]).Nil?
    modifies n
    ensures r.Valid() && fresh(r.repr - old(n.repr))
    ensures Done(rc, r.tree) == Extend(old(n.tree), rest)
  {
    if rest == [] {
      n.Become((n.refcount + 1) % REFCOUNT_MOD, n.prefix, n.layout, n.kids, n.tree.kids, n.repr - {n});
      return n, if n.refcount == 1 then 1 else 0;
    }
    var k := NewChain(rest[1..]);
    r := AddChildNode(n, rest[0], k);
    rc := 1;
  }

  /** nn_trie_subscribe from the node in one slot; the caller stores the result back. */
  method SubscribeAt(n: TrieNode?, data: seq<byte>) returns (r: TrieNode, rc: int)
    requires ValidOf(n) && WellFormed(TreeOf(n))
    modifies ReprOf(n)
    ensures r.Valid() && fresh(r.repr - old(ReprOf(n)))
    ensures Done(rc, r.tree) == Subscribe(old(TreeOf(n)), data)
    decreases |data|, 1
  {
    if n == null {
      r := NewChain(data);
      return r, 1;
    }
    var pos := CheckPrefixOf(n, data);
    var rest := data[pos..];
    if pos < |n.prefix| {
      TrieSubscribe.SplitPath(n.tree, data);
      var u := SplitNode(n, pos);
      r, rc := ExtendNode(u, rest);
      return;
    }
    if rest == [] {
      r, rc := ExtendNode(n, rest);
      return;
    }
    var i := NextIndex(n, rest[0]);
    if i == -1 || n.kids[i] == null {
      r, rc := ExtendNode(n, rest);
    } else {
      rc := SubscribeBelow(n, i, rest[1..]);
      r := n;
    }
  }

  method SubscribeBelow(n: TrieNode, i: nat, rest: seq<byte>) returns (rc: int)
    requires n.Valid() && i < |n.kids| && WellFormed(n.tree.kids[i])
    modifies n.repr
    ensures n.Valid() && fresh(n.repr - old(n.repr))
    ensures var s := Subscribe(old(n.tree.kids[i]), rest);
            rc == s.rc && n.tree == old(n.tree).(kids := old(n.tree.kids)[i := s.trie])
    decreases |rest|, 2
  {
    ghost var trees, below := n.tree.kids, n.repr - {n} - ReprOf(n.kids[i]);
    Detach(n.kids, trees, n.repr - {n}, i);
    var k, krc := SubscribeAt(n.kids[i], rest);
    SetKid(n, i, k, trees, below);
    rc := krc;
  }

  // ---------------------------------------------------------------------------- unsubscribe

  /** The `found` label. */
  method FoundAt(n: TrieNode?) returns (r: TrieNode?, rc: int)
    requires ValidOf(n) && WellFormed(TreeOf(n))
    modifies ReprOf(n)
    ensures ValidOf(r) && ReprOf(r) <= old(ReprOf(n))
    ensures Done(rc, TreeOf(r)) == Found(old(TreeOf(n)))
  {
    if n == null || n.refcount == 0 { return n, -EINVAL; }
    n.Become(n.refcount - 1, n.prefix, n.layout, n.kids, n.tree.kids, n.repr - {n});
    if n.refcount > 0 { return n, 0; }
    if |n.kids| == 0 { return null, 1; }
    r := CompactNode(n);
    rc := 1;
  }

  method PruneSparseNode(n: TrieNode, i: nat) returns (r: TrieNode?, rc: int)
    requires n.Valid() && n.layout.Sparse? && i < |n.kids| == |n.layout.chars|
    requires LayoutOk(Sparse(n.layout.chars[..i] + n.layout.chars[i + 1..]), n.tree.kids[..i] + n.tree.kids[i + 1..])
    modifies n.repr
    ensures ValidOf(r) && ReprOf(r) <= old(n.repr)
    ensures Done(rc, TreeOf(r)) == PruneSparse(old(n.tree), i)
  {
    var chars := n.layout.chars[..i] + n.layout.chars[i + 1..];
    WithoutKid(n.kids, n.tree.kids, n.repr - {n}, i);
    n.Become(n.refcount, n.prefix, Sparse(chars), n.kids[..i] + n.kids[i + 1..],
             n.tree.kids[..i] + n.tree.kids[i + 1..], n.repr - {n});
    if |chars| == 0 && n.refcount == 0 { return null, 1; }
    r := CompactNode(n);
    rc := 1;
  }

  method FirstUsed(kids: seq<TrieNode?>, ghost trees: seq<Trie>, ghost below: set<TrieNode>) returns (i: nat)
    requires Owned(kids, trees, below, -1)
    ensures i == FirstNonNil(trees)
  {
    i := 0;
    while i != |kids| && kids[i] == null
      invariant i <= |kids| && forall j :: 0 <= j < i ==> trees[j] == Nil
    {
      i := i + 1;
    }
  }

  method LastUsed(kids: seq<TrieNode?>, ghost trees: seq<Trie>, ghost below: set<TrieNode>) returns (i: nat)
    requires Owned(kids, trees, below, -1) && kids != []
    ensures i == LastNonNil(trees)
  {
    i := |kids| - 1;
    while i != 0 && kids[i] == null
      invariant i < |kids| && forall j :: i < j < |kids| ==> trees[j] == Nil
    {
      i := i - 1;
    }
  }

  /** No child from slot `i` on shares a node with `subs`. */
  ghost predicate Apart(subs: seq<TrieNode?>, kids: seq<TrieNode?>, below: set<TrieNode>, i: nat)
    reads below
  {
    forall m, j :: 0 <= m < |subs| && i <= j < |kids| && subs[m] in below && kids[j] in below ==>
      subs[m].repr !! kids[j].repr
  }

  lemma GatherStep(subs: seq<TrieNode?>, got: seq<Trie>, kids: seq<TrieNode?>, trees: seq<Trie>,
                   below: set<TrieNode>, i: nat)
    requires Owned(kids, trees, below, -1) && Owned(subs, got, below, -1) && Apart(subs, kids, below, i)
    requires i < |kids| && kids[i] != null
    ensures Owned(subs + [kids[i]], got + [trees[i]], below, -1) && Apart(subs + [kids[i]], kids, below, i + 1)
  {
  }

  lemma {:induction false} GatherSpec(a: seq<Trie>, x: Trie, base: nat)
    requires base + |a| < 256
    ensures CharsOf(a + [x], base) == CharsOf(a, base) + (if x.Nil? then [] else [(base + |a|) as byte])
    ensures KidsOf(a + [x]) == KidsOf(a) + (if x.Nil? then [] else [x])
    decreases |a|
  {
    if a != [] {
      assert (a + [x])[1..] == a[1..] + [x];
      GatherSpec(a[1..], x, base + 1);
    }
  }

  lemma GatherNext(trees: seq<Trie>, i: nat, base: nat)
    requires i < |trees| && base + |trees| <= 256
    ensures CharsOf(trees[..i + 1], base) ==
            CharsOf(trees[..i], base) + (if trees[i].Nil? then [] else [(base + i) as byte])
    ensures KidsOf(trees[..i + 1]) == KidsOf(trees[..i]) + (if trees[i].Nil? then [] else [trees[i]])
  {
    GatherSpec(trees[..i], trees[i], base);
    assert trees[..i + 1] == trees[..i] + [trees[i]];
  }

  /** The first `i` slots have been gathered. */
  ghost predicate GatheredTo(kids: seq<TrieNode?>, trees: seq<Trie>, below: set<TrieNode>, min: byte, i: nat,
                             chars: seq<byte>, subs: seq<TrieNode?>)
    requires i <= |trees| && min as int + |trees| <= 256
    reads below
  {
    && chars == CharsOf(trees[..i], min)
    && Owned(subs, KidsOf(trees[..i]), below, -1)
    && Apart(subs, kids, below, i)
  }

  lemma GatherAdvance(kids: seq<TrieNode?>, trees: seq<Trie>, below: set<TrieNode>, min: byte, i: nat,
                      chars: seq<byte>, subs: seq<TrieNode?>)
    requires Owned(kids, trees, below, -1) && i < |trees| && min as int + |trees| <= 256
    requires GatheredTo(kids, trees, below, min, i, chars, subs)
    ensures if kids[i] == null then GatheredTo(kids, trees, below, min, i + 1, chars, subs)
            else GatheredTo(kids, trees, below, min, i + 1, chars + [(min as int + i) as byte], subs + [kids[i]])
  {
    GatherNext(trees, i, min);
    if kids[i] != null { GatherStep(subs, KidsOf(trees[..i]), kids, trees, below, i); }
  }

  lemma GatherDone(trees: seq<Trie>)
    ensures trees[..|trees|] == trees
  {
  }

  /** Gather the children of a dense array into a sparse one. */
  method Gather(kids: seq<TrieNode?>, min: byte, ghost trees: seq<Trie>, ghost below: set<TrieNode>)
    returns (chars: seq<byte>, subs: seq<TrieNode?>)
    requires Owned(kids, trees, below, -1) && min as int + |kids| <= 256
    ensures GatheredTo(kids, trees, below, min, |trees|, chars, subs)
  {
    chars, subs := [], [];
    for i := 0 to |kids|
      invariant GatheredTo(kids, trees, below, min, i, chars, subs)
    {
      GatherAdvance(kids, trees, below, min, i, chars, subs);
      if kids[i] != null {
        chars, subs := chars + [min as int + i], subs + [kids[i]];
      }
    }
  }

  method TrimLeft(n: TrieNode)
    requires n.Valid() && n.layout.Dense? && n.layout.min <= n.layout.max && n.layout.nbr > SPARSE_MAX + 1
    requires |n.kids| == n.layout.max - n.layout.min + 1
    requires n.tree.kids[0].Node? || n.tree.kids[|n.kids| - 1].Node?
    modifies n
    ensures n.Valid() && n.repr == old(n.repr)
    ensures Done(1, n.tree) == PruneDense(old(n.tree), old(n.layout.min))
  {
    var Dense(min, max, nbr) := n.layout;
    ghost var trees, below := n.tree.kids, n.repr - {n};
    var i := FirstUsed(n.kids, trees, below);
    Sliced(n.kids, trees, below, i, |n.kids|);
    n.Become(n.refcount, n.prefix, Dense(min as int + i, max, nbr - 1), n.kids[i..], trees[i..], below);
  }

  method TrimRight(n: TrieNode)
    requires n.Valid() && n.layout.Dense? && n.layout.min < n.layout.max && n.layout.nbr > SPARSE_MAX + 1
    requires |n.kids| == n.layout.max - n.layout.min + 1
    requires n.tree.kids[0].Node? || n.tree.kids[|n.kids| - 1].Node?
    modifies n
    ensures n.Valid() && n.repr == old(n.repr)
    ensures Done(1, n.tree) == PruneDense(old(n.tree), old(n.layout.max))
  {
    var Dense(min, max, nbr) := n.layout;
    ghost var trees, below := n.tree.kids, n.repr - {n};
    var i := LastUsed(n.kids, trees, below);
    Sliced(n.kids, trees, below, 0, i + 1);
    n.Become(n.refcount, n.prefix, Dense(min, min as int + i, nbr - 1), n.kids[..i + 1], trees[..i + 1], below);
  }

  /** Trim a dense node that stays dense. */
  method TrimNode(n: TrieNode, c: byte)
    requires n.Valid() && n.layout.Dense? && n.layout.min <= c <= n.layout.max
    requires |n.kids| == n.layout.max - n.layout.min + 1
    requires n.tree.kids[0].Node? || n.tree.kids[|n.kids| - 1].Node?
    requires n.layout.nbr > SPARSE_MAX + 1
    modifies n
    ensures n.Valid() && n.repr == old(n.repr)
    ensures Done(1, n.tree) == PruneDense(old(n.tree), c)
  {
    if c == n.layout.min {
      TrimLeft(n);
    } else if c == n.layout.max {
      TrimRight(n);
    } else {
      n.Become(n.refcount, n.prefix, n.layout.(nbr := n.layout.nbr - 1), n.kids, n.tree.kids, n.repr - {n});
    }
  }

  method PruneDenseNode(n: TrieNode, c: byte) returns (r: TrieNode, rc: int)
    requires n.Valid() && n.layout.Dense? && n.layout.min <= c <= n.layout.max
    requires |n.kids| == n.layout.max - n.layout.min + 1
    requires n.tree.kids[0].Node? || n.tree.kids[|n.kids| - 1].Node?
    requires PruneDense(n.tree, c).Done?
    modifies n.repr
    ensures r.Valid() && fresh(r.repr - old(n.repr))
    ensures Done(rc, r.tree) == PruneDense(old(n.tree), c)
  {
    rc := 1;
    if n.layout.nbr > SPARSE_MAX + 1 {
      TrimNode(n, c);
      r := n;
    } else {
      ghost var trees, below := n.tree.kids, n.repr - {n};
      var chars, subs := Gather(n.kids, n.layout.min, trees, below);
      GatherDone(trees);
      r := new TrieNode(0, n.prefix, Sparse(chars), subs, KidsOf(trees), below);
    }
  }

  /** nn_node_unsubscribe on the node in one slot, wherever it does not crash. */
  method UnsubscribeAt(n: TrieNode?, data: seq<byte>) returns (r: TrieNode?, rc: int)
    requires ValidOf(n) && WellFormed(TreeOf(n)) && Unsubscribe(TreeOf(n), data).Done?
    modifies ReprOf(n)
    ensures ValidOf(r) && fresh(ReprOf(r) - old(ReprOf(n)))
    ensures Done(rc, TreeOf(r)) == Unsubscribe(old(TreeOf(n)), data)
    decreases |data|, 1
  {
    if |data| == 0 {
      r, rc := FoundAt(n);
      return;
    }
    var pos := CheckPrefixOf(n, data);
    if pos != |n.prefix| { return n, 0; }
    var rest := data[pos..];
    if |rest| == 0 {
      r, rc := FoundAt(n);
      return;
    }
    var i := NextIndex(n, rest[0]);
    if i == -1 { return n, 0; }
    r, rc := UnsubscribeBelow(n, i, rest[0], rest[1..]);
  }

  /** The removal from one child, stored back into its slot. */
  method UnsubscribeKid(n: TrieNode, i: nat, tail: seq<byte>) returns (rc: int)
    requires n.Valid() && i < |n.kids| && WellFormed(n.tree.kids[i])
    requires Unsubscribe(n.tree.kids[i], tail).Done?
    modifies n.repr
    ensures n.Valid() && fresh(n.repr - old(n.repr)) && |n.kids| == |old(n.kids)|
    ensures n.tree == old(n.tree).(kids := old(n.tree.kids)[i := TreeOf(n.kids[i])])
    ensures Done(rc, TreeOf(n.kids[i])) == Unsubscribe(old(n.tree.kids[i]), tail)
    decreases |tail|, 2
  {
    ghost var trees, below := n.tree.kids, n.repr - {n} - ReprOf(n.kids[i]);
    Detach(n.kids, trees, n.repr - {n}, i);
    var k, krc := UnsubscribeAt(n.kids[i], tail);
    SetKid(n, i, k, trees, below);
    rc := krc;
  }

  method UnsubscribeBelow(n: TrieNode, i: nat, c: byte, tail: seq<byte>) returns (r: TrieNode?, rc: int)
    requires n.Valid() && WellFormed(n.tree) && i == Slot(n.layout, c) < |n.kids| && WellFormed(n.tree.kids[i])
    requires Unwind(n.tree, i, c, Unsubscribe(n.tree.kids[i], tail)).Done?
    modifies n.repr
    ensures ValidOf(r) && fresh(ReprOf(r) - old(n.repr))
    ensures Done(rc, TreeOf(r)) == Unwind(old(n.tree), i, c, Unsubscribe(old(n.tree.kids[i]), tail))
    decreases |tail|, 3
  {
    var krc := UnsubscribeKid(n, i, tail);
    r, rc := UnwindAt(n, i, c, krc, old(n.tree));
  }

  method UnwindAt(n: TrieNode, i: nat, c: byte, krc: int, ghost was: Trie) returns (r: TrieNode?, rc: int)
    requires was.Node? && LayoutOk(was.layout, was.kids) && i == Slot(was.layout, c) < |was.kids|
    requires n.Valid() && i < |n.kids| && n.tree == was.(kids := was.kids[i := TreeOf(n.kids[i])])
    requires Unwind(was, i, c, Done(krc, n.tree.kids[i])).Done?
    modifies n.repr
    ensures ValidOf(r) && fresh(ReprOf(r) - old(n.repr))
    ensures Done(rc, TreeOf(r)) == Unwind(was, i, c, Done(krc, old(n.tree.kids[i])))
  {
    if krc == 0 { return n, 0; }
    if n.kids[i] != null { return n, 1; }
    match n.layout {
      case Sparse(_) => r, rc := PruneSparseNode(n, i);
      case Dense(_, _, _) => r, rc := PruneDenseNode(n, c);
    }
  }

  // ---------------------------------------------------------------------------------- match

  method Follow(n: TrieNode, c: byte) returns (k: TrieNode?)
    requires n.Valid() && LayoutOk(n.tree.layout, n.tree.kids)
    ensures ValidOf(k) && TreeOf(k) == Next(n.tree, c)
  {
    var i := NextIndex(n, c);
    if i == -1 { return null; }
    Detach(n.kids, n.tree.kids, n.repr - {n}, i);
    k := n.kids[i];
  }

  lemma MatchEnds(t: Trie, memory: seq<byte>, size: int)
    requires t.Node? && size <= |memory|
    ensures var pos := CheckPrefix(t.prefix, InSight(memory, size));
            && (pos != |t.prefix| ==> !MatchMemory(t, memory, size))
            && (pos == |t.prefix| && t.refcount > 0 ==> MatchMemory(t, memory, size))
            && (pos == |t.prefix| == |memory| && t.refcount == 0 ==> !MatchMemory(t, memory, size))
  {
    FitsMeans(t.prefix, memory, size);
  }

  /** One turn of nn_trie_match: whether it ends here and with what, or how far it has come. */
  method MatchTurn(n: TrieNode, ghost t: Trie, memory: seq<byte>, size: int) returns (over: bool, found: bool, pos: nat)
    requires t.Node? && WellFormed(t) && n.prefix == t.prefix && n.refcount == t.refcount && size <= |memory|
    ensures over ==> (found <==> MatchMemory(t, memory, size))
    ensures !over ==>
              && pos < |memory| && WellFormed(Next(t, memory[pos]))
              && (MatchMemory(t, memory, size) <==>
                    MatchMemory(Next(t, memory[pos]), memory[pos + 1..], size - pos - 1))
  {
    MatchEnds(t, memory, size);
    pos := CheckPrefixOf(n, InSight(memory, size));
    if pos != |n.prefix| { return true, false, pos; }
    if n.refcount > 0 { return true, true, pos; }
    if |memory| == pos { return true, false, pos; }
    FitsMeans(t.prefix, memory, size);
    NextWellFormed(t, memory[pos]);
    TrieMatch.MatchStep(t, memory, size, pos);
    return false, false, pos;
  }

  /** nn_trie_match; beyond `memory` nothing matches. */
  method MatchFrom(root: TrieNode?, memory: seq<byte>, size: nat) returns (found: bool)
    requires ValidOf(root) && WellFormed(TreeOf(root)) && size <= |memory|
    ensures found <==> MatchMemory(TreeOf(root), memory, size)
  {
    ghost var reports := MatchMemory(TreeOf(root), memory, size);
    var node, rest, left: int := root, memory, size;
    while node != null
      invariant ValidOf(node) && WellFormed(TreeOf(node)) && left <= |rest|
      invariant reports <==> MatchMemory(TreeOf(node), rest, left)
      decreases |rest|, node != null
    {
      var over, here, pos := MatchTurn(node, node.tree, rest, left);
      if over { return here; }
      node := Follow(node, rest[pos]);
      rest, left := rest[pos + 1..], left - pos - 1;
    }
    return false;
  }

  // --------------------------------------------------------------------------- the whole trie

  /** nn_trie: the root slot. */
  class SubscriptionTrie {
    var root: TrieNode?

    ghost function Tree(): Trie
      reads this, root
    {
      TreeOf(root)
    }

    /** The nodes are linked as a tree. */
    ghost predicate Linked()
      reads this, root, ReprOf(root)
    {
      ValidOf(root)
    }

    constructor ()
      ensures Linked() && WellFormed(Tree()) && forall x :: Count(Tree(), x) == 0
      ensures ReprOf(root) == {}
    {
      root := null;
    }

    method Subscribe(data: seq<byte>) returns (rc: int)
      requires Linked() && WellFormed(Tree())
      modifies this, ReprOf(root)
      ensures Linked() && fresh(ReprOf(root) - old(ReprOf(root)))
      ensures forall x :: Count(Tree(), x) == TrieSubscribe.AfterSubscribe(old(Tree()), data, x)
      ensures rc == if Count(old(Tree()), data) == 0 then 1 else 0
      ensures WellFormed(Tree()) <==>
                (Count(old(Tree()), data) == REFCOUNT_MOD - 1 ==> exists c :: HeldBelow(old(Tree()), data, c))
    {
      ghost var was := Tree();
      var r, code := SubscribeAt(root, data);
      root, rc := r, code;
      TrieSubscribe.SubscribeShape(was, data);
      TrieSubscribe.SubscribeCount(was, data, data);
      forall x ensures Count(Tree(), x) == TrieSubscribe.AfterSubscribe(was, data, x) {
        TrieSubscribe.SubscribeCount(was, data, x);
      }
    }

    /** nn_trie_unsubscribe, wherever it does not crash. */
    method Unsubscribe(data: seq<byte>) returns (rc: int)
      requires Linked() && WellFormed(Tree())
      requires !TrieAbsent.CrashWalk(Tree(), data)
      modifies this, ReprOf(root)
      ensures Linked() && fresh(ReprOf(root) - old(ReprOf(root)))
      ensures Done(rc, Tree()) == T.Unsubscribe(old(Tree()), data)
      ensures Count(old(Tree()), data) > 0 ==>
                && WellFormed(Tree())
                && rc == (if Count(old(Tree()), data) == 1 then 1 else 0)
                && forall x :: Count(Tree(), x) == TrieUnsubscribe.AfterUnsubscribe(old(Tree()), data, x)
      ensures Count(old(Tree()), data) == 0 ==>
                (Tree() == old(Tree()) <==> !TrieUnsubscribe.GoesAstray(old(Tree()), data))
    {
      ghost var was := Tree();
      TrieAbsent.UnsubscribeCrashes(was, data);
      if Count(was, data) > 0 {
        TrieUnsubscribe.UnsubscribeHeld(was, data);
      } else {
        TrieUnsubscribe.UnsubscribeAbsent(was, data);
      }
      var r, code := UnsubscribeAt(root, data);
      root, rc := r, code;
    }

    /** nn_trie_match for a message with the memory behind it. */
    method Match(msg: seq<byte>, behind: seq<byte>) returns (found: bool)
      requires Linked() && WellFormed(Tree())
      ensures found <==> TrieMatch.Passes(Tree(), msg, behind)
    {
      var memory := msg + behind;
      assert memory[..|msg|] == msg;
      TrieMatch.MatchReports(Tree(), memory, |msg|);
      found := MatchFrom(root, memory, |msg|);
    }
  }
}
