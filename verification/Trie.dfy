/**
 * The subscription trie of the SUB socket, as values.
 *
 * A node carries a prefix of at most ten bytes and its children in one of two layouts: sparse (a
 * list of at most eight characters, one child each) or dense (one slot for every character from
 * `min` to `max`, empty slots being NULL).  The functions below follow the C code branch by
 * branch; TrieMeaning proves what they do to the number of subscriptions held for each string,
 * and TrieHeap proves that the pointer-based operations compute exactly these functions.
 */
module Trie {
  import opened Bytes
  import opened Wrappers

  const PREFIX_MAX := 10
  const SPARSE_MAX := 8
  const EINVAL := 22

  /** Reference counts are 32-bit and wrap. */
  const REFCOUNT_MOD := 0x1_0000_0000

  datatype Layout = Sparse(chars: seq<byte>) | Dense(min: byte, max: byte, nbr: nat)

  /** `Nil` is the NULL pointer. */
  datatype Trie = Nil | Node(refcount: nat, prefix: seq<byte>, layout: Layout, kids: seq<Trie>)

  // ---------------------------------------------------------------------------------- shape

  function NonNil(kids: seq<Trie>): (n: nat)
    ensures n <= |kids|
  {
    if kids == [] then 0 else (if kids[0].Nil? then 0 else 1) + NonNil(kids[1..])
  }

  predicate LayoutOk(layout: Layout, kids: seq<Trie>) {
    match layout
    case Sparse(chars) =>
      && |chars| == |kids| <= SPARSE_MAX
      && Distinct(chars)
      && forall i :: 0 <= i < |kids| ==> kids[i].Node?
    case Dense(min, max, nbr) =>
      && min <= max
      && |kids| == max - min + 1
      && nbr == NonNil(kids)
      && SPARSE_MAX < nbr
      && kids[0].Node? && kids[|kids| - 1].Node?
  }

  /** The shape every trie of the socket has: see TrieRuns.RunMeaning. */
  predicate WellFormed(t: Trie)
    decreases t, 1
  {
    t.Node? ==>
      && |t.prefix| <= PREFIX_MAX
      && t.refcount < REFCOUNT_MOD
      && LayoutOk(t.layout, t.kids)
      && (t.kids == [] ==> t.refcount > 0)
      && AllWellFormed(t.kids)
  }

  predicate AllWellFormed(kids: seq<Trie>)
    decreases kids, 0
  {
    forall i :: 0 <= i < |kids| ==> WellFormed(kids[i])
  }

  // -------------------------------------------------------------------------------- readers

  ghost predicate Agree(prefix: seq<byte>, data: seq<byte>, n: nat) {
    && n <= |prefix| && n <= |data|
    && prefix[..n] == data[..n]
    && (n < |prefix| && n < |data| ==> prefix[n] != data[n])
  }

  lemma {:induction false} SomeAgree(prefix: seq<byte>, data: seq<byte>) returns (n: nat)
    ensures Agree(prefix, data, n)
  {
    n := 0;
    while n < |prefix| && n < |data| && prefix[n] == data[n]
      invariant n <= |prefix| && n <= |data| && prefix[..n] == data[..n]
    {
      n := n + 1;
    }
  }

  /** nn_node_check_prefix: how many characters of the prefix the data matches. */
  ghost function CheckPrefix(prefix: seq<byte>, data: seq<byte>): (n: nat)
    ensures Agree(prefix, data, n)
  {
    assert exists n: nat :: Agree(prefix, data, n) by { var n := SomeAgree(prefix, data); }
    var n: nat :| Agree(prefix, data, n);
    n
  }

  lemma CheckPrefixMeans(p: seq<byte>, s: seq<byte>)
    ensures CheckPrefix(p, s) == |p| <==> p <= s
  {
  }

  ghost predicate FirstAt(chars: seq<byte>, c: byte, i: nat) {
    i < |chars| && chars[i] == c && forall j :: 0 <= j < i ==> chars[j] != c
  }

  lemma SomeFirst(chars: seq<byte>, c: byte) returns (i: nat)
    requires c in chars
    ensures FirstAt(chars, c, i)
  {
    i := 0;
    while chars[i] != c
      invariant i < |chars| && c in chars[i..] && forall j :: 0 <= j < i ==> chars[j] != c
      decreases |chars| - i
    {
      i := i + 1;
    }
  }

  /** The first place of a character in a list, -1 where it is absent. */
  ghost function IndexOf(chars: seq<byte>, c: byte): (i: int)
    ensures i == -1 || (0 <= i && FirstAt(chars, c, i))
    ensures i == -1 <==> c !in chars
  {
    if c in chars then
      assert exists i: nat :: FirstAt(chars, c, i) by { var i := SomeFirst(chars, c); }
      var i: nat :| FirstAt(chars, c, i);
      i
    else -1
  }

  /** The index nn_node_next finds for a character, -1 standing for its NULL result. */
  ghost function Slot(layout: Layout, c: byte): (i: int)
    ensures -1 <= i
  {
    match layout
    case Sparse(chars) => IndexOf(chars, c)
    case Dense(min, max, _) => if min <= c <= max then c - min else -1
  }

  /** The child reached by a character; both a missing slot and an empty slot give Nil. */
  ghost function Next(t: Trie, c: byte): (k: Trie)
    requires t.Node?
    ensures k.Node? ==> k < t
  {
    var i := Slot(t.layout, c);
    if 0 <= i < |t.kids| then t.kids[i] else Nil
  }

  // -------------------------------------------------------------------------- restructuring

  /** nn_node_compact: merge a node that is no subscription with its only child. */
  ghost function Compact(t: Trie): (r: Trie)
    requires t.Node? && LayoutOk(t.layout, t.kids)
    ensures r.Node?
  {
    if t.refcount != 0 || |t.kids| != 1 || t.layout.Dense? then t
    else
      var ch := t.kids[0];
      if |t.prefix| + |ch.prefix| + 1 > PREFIX_MAX then t
      else ch.(prefix := t.prefix + [t.layout.chars[0]] + ch.prefix)
  }

  /** Step 4: the chain of new nodes for the rest of a subscription, counted once (step 5). */
  function Chain(data: seq<byte>): (r: Trie)
    ensures r.Node?
    decreases |data|
  {
    if |data| > PREFIX_MAX then
      Node(0, data[..PREFIX_MAX], Sparse([data[PREFIX_MAX]]), [Chain(data[PREFIX_MAX + 1..])])
    else Node(1, data, Sparse([]), [])
  }

  /** The node that holds the empty string once and nothing else. */
  const LEAF := Node(1, [], Sparse([]), [])

  function Min(a: byte, b: byte): byte { if a < b then a else b }

  function Max(a: byte, b: byte): byte { if a > b then a else b }

  function MinOf(chars: seq<byte>, seed: byte): (m: byte)
    ensures m <= seed && forall i :: 0 <= i < |chars| ==> m <= chars[i]
    ensures m == seed || m in chars
  {
    if chars == [] then seed else Min(chars[0], MinOf(chars[1..], seed))
  }

  function MaxOf(chars: seq<byte>, seed: byte): (m: byte)
    ensures seed <= m && forall i :: 0 <= i < |chars| ==> chars[i] <= m
    ensures m == seed || m in chars
  {
    if chars == [] then seed else Max(chars[0], MaxOf(chars[1..], seed))
  }

  function Nils(n: nat): (s: seq<Trie>)
    ensures |s| == n && forall i :: 0 <= i < n ==> s[i] == Nil
  {
    seq(n, _ => Nil)
  }

  /** Widen a dense node just enough to cover one more character. */
  function Widen(t: Trie, c: byte): (r: Trie)
    requires t.Node? && t.layout.Dense? && t.layout.min <= t.layout.max
    requires |t.kids| == t.layout.max - t.layout.min + 1
    ensures r.Node? && r.layout.Dense?
    ensures r.layout.min <= c <= r.layout.max
    ensures |r.kids| == r.layout.max - r.layout.min + 1
  {
    var Dense(min, max, nbr) := t.layout;
    var newMin, newMax := Min(min, c), Max(max, c);
    t.(layout := Dense(newMin, newMax, nbr),
       kids := Nils(min - newMin) + t.kids + Nils(newMax - max))
  }

  /** The children of a node laid out by character, from `min` on. */
  ghost function Spread(t: Trie, min: nat, n: nat): (s: seq<Trie>)
    requires t.Node? && min + n <= 256
    ensures |s| == n && forall i :: 0 <= i < n ==> s[i] == Next(t, min + i)
  {
    seq(n, i requires 0 <= i < n => Next(t, min + i))
  }

  /** The dense replacement of a full sparse node: its own reference count starts at zero. */
  ghost function ToDense(t: Trie, c: byte, k: Trie): (r: Trie)
    requires t.Node? && t.layout.Sparse?
    ensures r.Node?
  {
    var chars := t.layout.chars;
    var min, max := MinOf(chars, c), MaxOf(chars, c);
    Node(0, t.prefix, Dense(min, max, |chars| + 1), Spread(t, min, max as int - min + 1)[c - min := k])
  }

  /** Step 3: add a child for a character that has none. */
  ghost function AddChild(t: Trie, c: byte, k: Trie): (r: Trie)
    requires t.Node? && LayoutOk(t.layout, t.kids)
    ensures r.Node?
  {
    if t.layout.Sparse? && |t.layout.chars| < SPARSE_MAX then
      t.(layout := Sparse(t.layout.chars + [c]), kids := t.kids + [k])
    else if t.layout.Dense? then
      var w := Widen(t, c);
      w.(layout := w.layout.(nbr := w.layout.nbr + 1),
         kids := w.kids[c - w.layout.min := k])
    else ToDense(t, c, k)
  }

  /** Step 2: cut a node's prefix at `pos`; the lower half may merge with its only child. */
  ghost function Split(t: Trie, pos: nat): (r: Trie)
    requires t.Node? && LayoutOk(t.layout, t.kids) && pos < |t.prefix|
    ensures r.Node? && LayoutOk(r.layout, r.kids)
  {
    Node(0, t.prefix[..pos], Sparse([t.prefix[pos]]), [Compact(t.(prefix := t.prefix[pos + 1..]))])
  }

  // ------------------------------------------------------------------------------ subscribe

  /** What a call leaves behind: its return value and the new trie. */
  datatype Outcome = Crash | Done(rc: int, trie: Trie)

  /** Step 5: one more reference to the node at the end of the string. */
  function Refer(t: Trie): (r: Outcome)
    requires t.Node?
    ensures r.Done? && r.trie.Node?
  {
    var n := (t.refcount + 1) % REFCOUNT_MOD;
    Done(if n == 1 then 1 else 0, t.(refcount := n))
  }

  /** Steps 3 to 5 at a node whose prefix the subscription has matched, with no child to follow. */
  ghost function Extend(t: Trie, rest: seq<byte>): (r: Outcome)
    requires t.Node? && LayoutOk(t.layout, t.kids)
    ensures r.Done? && r.trie.Node?
  {
    if rest == [] then Refer(t) else Done(1, AddChild(t, rest[0], Chain(rest[1..])))
  }

  /** nn_trie_subscribe. */
  ghost function Subscribe(t: Trie, data: seq<byte>): (r: Outcome)
    requires WellFormed(t)
    ensures r.Done? && r.trie.Node?
    decreases |data|
  {
    if t.Nil? then Done(1, Chain(data))
    else
      var pos := CheckPrefix(t.prefix, data);
      var rest := data[pos..];
      if pos < |t.prefix| then Extend(Split(t, pos), rest)
      else if rest == [] then Refer(t)
      else if Next(t, rest[0]).Nil? then Extend(t, rest)
      else
        var i := Slot(t.layout, rest[0]);
        assert AllWellFormed(t.kids);
        var r := Subscribe(t.kids[i], rest[1..]);
        Done(r.rc, t.(kids := t.kids[i := r.trie]))
  }

  // ---------------------------------------------------------------------------- unsubscribe

  /** The `found` label: drop one reference, deleting or merging the node when none is left. */
  ghost function Found(t: Trie): (r: Outcome)
    requires t.Node? ==> LayoutOk(t.layout, t.kids)
    ensures r.Done?
  {
    if t.Nil? || t.refcount == 0 then Done(-EINVAL, t)
    else if t.refcount > 1 then Done(0, t.(refcount := t.refcount - 1))
    else if t.kids == [] then Done(1, Nil)
    else Done(1, Compact(t.(refcount := 0)))
  }

  function FirstNonNil(kids: seq<Trie>): (i: nat)
    ensures i <= |kids|
    ensures i < |kids| ==> kids[i].Node?
    ensures forall j :: 0 <= j < i ==> kids[j].Nil?
  {
    if kids == [] || kids[0].Node? then 0 else 1 + FirstNonNil(kids[1..])
  }

  /** The scan from the right stops at index 0 whatever is there. */
  function LastNonNil(kids: seq<Trie>): (i: nat)
    requires kids != []
    ensures i < |kids|
    ensures kids[i].Node? || i == 0
    ensures forall j :: i < j < |kids| ==> kids[j].Nil?
  {
    if |kids| == 1 || kids[|kids| - 1].Node? then |kids| - 1 else LastNonNil(kids[..|kids| - 1])
  }

  function CharsOf(kids: seq<Trie>, base: nat): (chars: seq<byte>)
    requires base + |kids| <= 256
    ensures |chars| == NonNil(kids)
  {
    if kids == [] then []
    else (if kids[0].Nil? then [] else [base]) + CharsOf(kids[1..], base + 1)
  }

  function KidsOf(kids: seq<Trie>): (r: seq<Trie>)
    ensures |r| == NonNil(kids)
    ensures forall i :: 0 <= i < |r| ==> r[i].Node? && r[i] in kids
  {
    if kids == [] then []
    else (if kids[0].Nil? then [] else [kids[0]]) + KidsOf(kids[1..])
  }

  /** Remove child `i` of a sparse node, then delete or merge the node if it can be. */
  ghost function PruneSparse(t: Trie, i: nat): (r: Outcome)
    requires t.Node? && t.layout.Sparse? && i < |t.kids| == |t.layout.chars|
    requires LayoutOk(Sparse(t.layout.chars[..i] + t.layout.chars[i + 1..]), t.kids[..i] + t.kids[i + 1..])
    ensures r.Done?
  {
    var chars := t.layout.chars[..i] + t.layout.chars[i + 1..];
    var t' := t.(layout := Sparse(chars), kids := t.kids[..i] + t.kids[i + 1..]);
    if chars == [] && t.refcount == 0 then Done(1, Nil) else Done(1, Compact(t'))
  }

  /** Trim a dense node after the child for `c` has gone, or convert it to a sparse one. */
  function PruneDense(t: Trie, c: byte): (r: Outcome)
    requires t.Node? && t.layout.Dense? && t.layout.min <= c <= t.layout.max
    requires |t.kids| == t.layout.max - t.layout.min + 1
    requires t.kids[0].Node? || t.kids[|t.kids| - 1].Node?
  {
    var Dense(min, max, nbr) := t.layout;
    if nbr > SPARSE_MAX + 1 then
      if c == min then
        var i := FirstNonNil(t.kids);
        Done(1, t.(layout := Dense(min + i, max, nbr - 1), kids := t.kids[i..]))
      else if c == max then
        var i := LastNonNil(t.kids);
        Done(1, t.(layout := Dense(min, min + i, nbr - 1), kids := t.kids[..i + 1]))
      else Done(1, t.(layout := Dense(min, max, nbr - 1)))
    else if NonNil(t.kids) == SPARSE_MAX then
      Done(1, Node(0, t.prefix, Sparse(CharsOf(t.kids, min)), KidsOf(t.kids)))
    else Crash  // the assertion that exactly eight children were moved
  }

  /** The walk back at a node whose child in slot `i` has been dealt with. */
  ghost function Unwind(t: Trie, i: nat, c: byte, sub: Outcome): (r: Outcome)
    requires t.Node? && LayoutOk(t.layout, t.kids) && i == Slot(t.layout, c) < |t.kids|
  {
    if sub.Crash? then Crash
    else
      var t' := t.(kids := t.kids[i := sub.trie]);
      if sub.rc == 0 then Done(0, t')
      else if sub.trie.Node? then Done(1, t')
      else if t.layout.Sparse? then PruneSparse(t', i)
      else PruneDense(t', c)
  }

  /**
   * nn_node_unsubscribe.  `Crash` is a call that dereferences NULL or fails an assertion; for a
   * string that is held it never happens.  An error from the recursive call is not zero, so the
   * caller goes on as after a removal.
   */
  ghost function Unsubscribe(t: Trie, data: seq<byte>): (r: Outcome)
    requires WellFormed(t)
    decreases |data|
  {
    if data == [] then Found(t)
    else if t.Nil? then Crash
    else if CheckPrefix(t.prefix, data) != |t.prefix| then Done(0, t)
    else
      var rest := data[|t.prefix|..];
      if rest == [] then Found(t)
      else
        var i := Slot(t.layout, rest[0]);
        assert AllWellFormed(t.kids);
        if i == -1 then Done(0, t) else Unwind(t, i, rest[0], Unsubscribe(t.kids[i], rest[1..]))
  }

  // ---------------------------------------------------------------------------------- match

  /** The bytes a node's prefix is compared with: a count below zero is a very large one. */
  function InSight(memory: seq<byte>, size: int): seq<byte>
    requires size <= |memory|
  {
    if size < 0 then memory else memory[..size]
  }

  /** The bytes in sight match the whole prefix. */
  predicate Fits(prefix: seq<byte>, memory: seq<byte>, size: int) {
    prefix <= memory && (size < 0 || |prefix| <= size)
  }

  lemma FitsMeans(prefix: seq<byte>, memory: seq<byte>, size: int)
    requires size <= |memory|
    ensures Fits(prefix, memory, size) <==> CheckPrefix(prefix, InSight(memory, size)) == |prefix|
  {
    CheckPrefixMeans(prefix, InSight(memory, size));
  }

  /**
   * nn_trie_match over the memory that starts at the message: `size` is the number of message
   * bytes still to match.  The walk steps to the next node without asking whether any are left,
   * so at the end of the message it reads the byte that follows and counts on below zero.  Bytes
   * beyond `memory` match nothing.
   */
  ghost function MatchMemory(t: Trie, memory: seq<byte>, size: int): bool
    requires size <= |memory|
    decreases |memory|
  {
    if t.Nil? then false
    else if !Fits(t.prefix, memory, size) then false
    else if t.refcount > 0 then true
    else
      var n := |t.prefix|;
      |memory| > n && MatchMemory(Next(t, memory[n]), memory[n + 1..], size - n - 1)
  }
}
