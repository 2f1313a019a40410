/**
 * What the trie means: how many times each string is subscribed.
 *
 * `Count` reads a trie as a table from strings to reference counts.  Everything below is stated
 * about that table alone: subscribing and unsubscribing change exactly the count of their string,
 * except for one effect of the layout conversions, whose condition is given in terms of the table
 * too (LosesOnSubscribe, LosesOnUnsubscribe).
 */
module TrieMeaning {
  import opened Bytes
  import opened Trie
  import opened Wrappers

  /** The reference count the trie holds for a string. */
  ghost function Count(t: Trie, x: seq<byte>): (n: nat)
    decreases |x|
  {
    if t.Nil? || !(t.prefix <= x) then 0
    else
      var rest := x[|t.prefix|..];
      if rest == [] then t.refcount else Count(Next(t, rest[0]), rest[1..])
  }

  /** Some held string starts with `p` followed by `c`. */
  ghost predicate HeldBelow(t: Trie, p: seq<byte>, c: byte) {
    exists x :: p + [c] <= x && Count(t, x) > 0
  }

  /** The characters with which held strings go on after `p`. */
  ghost function Branching(t: Trie, p: seq<byte>): set<byte> {
    set c: byte | HeldBelow(t, p, c)
  }

  ghost predicate ProperPrefix(p: seq<byte>, s: seq<byte>) {
    |p| < |s| && p <= s
  }

  // ------------------------------------------------------------------- walking one node down

  /** The string of a child, seen from its parent. */
  lemma CountBelow(t: Trie, c: byte, y: seq<byte>)
    requires t.Node?
    ensures Count(t, t.prefix + [c] + y) == Count(Next(t, c), y)
  {
    var x := t.prefix + [c] + y;
    assert x[|t.prefix|..] == [c] + y;
    assert ([c] + y)[1..] == y;
  }

  lemma CountAtPrefix(t: Trie)
    requires t.Node?
    ensures Count(t, t.prefix) == t.refcount
  {
    assert t.prefix[|t.prefix|..] == [];
  }

  /** A string is not held, ends at the node, or goes through one of its characters. */
  lemma CountCases(t: Trie, x: seq<byte>)
    requires t.Node?
    ensures !(t.prefix <= x) ==> Count(t, x) == 0
    ensures t.prefix <= x && |x| > |t.prefix| ==>
              && x == t.prefix + [x[|t.prefix|]] + x[|t.prefix| + 1..]
              && Count(t, x) == Count(Next(t, x[|t.prefix|]), x[|t.prefix| + 1..])
  {
    if t.prefix <= x && |x| > |t.prefix| {
      assert x[|t.prefix|..][1..] == x[|t.prefix| + 1..];
      assert x == t.prefix + x[|t.prefix|..];
    }
  }

  /** Every trie but the empty one holds a string. */
  lemma {:induction false} SomeHeld(t: Trie) returns (x: seq<byte>)
    requires t.Node? && WellFormed(t)
    ensures Count(t, x) > 0
    decreases t
  {
    if t.refcount > 0 {
      CountAtPrefix(t);
      x := t.prefix;
    } else {
      var c := SomeChar(t);
      var y := SomeHeld(Next(t, c));
      CountBelow(t, c, y);
      x := t.prefix + [c] + y;
    }
  }

  lemma SomeChar(t: Trie) returns (c: byte)
    requires t.Node? && WellFormed(t) && t.kids != []
    ensures Next(t, c).Node? && WellFormed(Next(t, c))
  {
    match t.layout
    case Sparse(chars) => c := chars[0];
    case Dense(min, _, _) => c := min;
  }

  lemma NextWellFormed(t: Trie, c: byte)
    requires t.Node? && WellFormed(t)
    ensures WellFormed(Next(t, c))
    ensures Next(t, c).Node? <==> 0 <= Slot(t.layout, c) < |t.kids| && t.kids[Slot(t.layout, c)].Node?
  {
  }

  // ---------------------------------------------------------------- branching, structurally

  /** At the end of a node's prefix the branching characters are those with a child. */
  lemma HeldBelowHere(t: Trie, c: byte)
    requires t.Node? && WellFormed(t)
    ensures HeldBelow(t, t.prefix, c) <==> Next(t, c).Node?
  {
    var p := t.prefix + [c];
    if Next(t, c).Node? {
      var y := SomeHeld(Next(t, c));
      CountBelow(t, c, y);
      assert p <= p + y && Count(t, p + y) > 0;
    }
    if HeldBelow(t, t.prefix, c) {
      var x :| p <= x && Count(t, x) > 0;
      CountCases(t, x);
      assert x[|t.prefix|] == p[|t.prefix|] == c;
    }
  }

  /** A string that starts with `p`, cut there. */
  lemma CutPrefix(p: seq<byte>, q: seq<byte>, x: seq<byte>)
    requires p + q <= x
    ensures p <= x && q <= x[|p|..] && x == p + x[|p|..]
  {
    assert x == x[..|p|] + x[|p|..];
    assert x[..|p|] == (p + q)[..|p|] == p;
    assert (p + q)[|p|..] == q;
  }

  /** Beyond a node's prefix, branching is that of the child. */
  lemma HeldBelowChild(t: Trie, c: byte, q: seq<byte>, d: byte)
    requires t.Node?
    ensures HeldBelow(t, t.prefix + [c] + q, d) <==> HeldBelow(Next(t, c), q, d)
  {
    var p := t.prefix + [c];
    assert p + q + [d] == p + (q + [d]);
    if HeldBelow(t, p + q, d) {
      var x :| p + q + [d] <= x && Count(t, x) > 0;
      CutPrefix(p, q + [d], x);
      CountBelow(t, c, x[|p|..]);
      assert Count(Next(t, c), x[|p|..]) > 0;
    }
    if HeldBelow(Next(t, c), q, d) {
      var y :| q + [d] <= y && Count(Next(t, c), y) > 0;
      CountBelow(t, c, y);
      assert p + (q + [d]) <= p + y && Count(t, p + y) > 0;
    }
  }

  /** Inside a node's prefix every held string goes on alike. */
  lemma HeldBelowInside(t: Trie, p: seq<byte>, c: byte)
    requires t.Node? && ProperPrefix(p, t.prefix) && HeldBelow(t, p, c)
    ensures c == t.prefix[|p|]
  {
    var x :| p + [c] <= x && Count(t, x) > 0;
    assert x[|p|] == (p + [c])[|p|] == c;
  }

  lemma FewInside(t: Trie, p: seq<byte>)
    requires t.Node? && ProperPrefix(p, t.prefix)
    ensures |Branching(t, p)| <= 1
  {
    forall c | c in Branching(t, p) ensures c == t.prefix[|p|] { HeldBelowInside(t, p, c); }
    var one: set<byte> := {t.prefix[|p|]};
    assert Branching(t, p) <= one;
    SubsetSize(Branching(t, p), one);
  }

  lemma {:induction false} SubsetSize<T>(a: set<T>, b: set<T>)
    requires a <= b
    ensures |a| <= |b|
    decreases a
  {
    if a != {} {
      var x :| x in a;
      SubsetSize(a - {x}, b - {x});
    }
  }

  /** The number of branching characters at a node is its number of children. */
  lemma BranchingHere(t: Trie)
    requires t.Node? && WellFormed(t)
    ensures |Branching(t, t.prefix)| == NonNil(t.kids)
  {
    forall c: byte ensures HeldBelow(t, t.prefix, c) <==> Next(t, c).Node? { HeldBelowHere(t, c); }
    match t.layout {
      case Sparse(chars) =>
        assert Branching(t, t.prefix) == SetOf(chars);
        DistinctSize(chars);
        AllNonNil(t.kids);
      case Dense(min, max, nbr) =>
        assert Branching(t, t.prefix) == CharSet(t.kids, min);
        CharSetSize(t.kids, min);
    }
  }

  predicate HasKid(kids: seq<Trie>, base: nat, c: byte) {
    base <= c < base + |kids| && kids[c - base].Node?
  }

  ghost function CharSet(kids: seq<Trie>, base: nat): set<byte> {
    set c: byte | HasKid(kids, base, c)
  }

  ghost function SetOf(chars: seq<byte>): set<byte> {
    set c | c in chars
  }

  lemma {:induction false} CharSetSize(kids: seq<Trie>, base: nat)
    requires base + |kids| <= 256
    ensures |CharSet(kids, base)| == NonNil(kids)
    decreases |kids|
  {
    if kids == [] {
      assert CharSet(kids, base) == {};
    } else {
      var tail := kids[1..];
      CharSetSize(tail, base + 1);
      var b: byte := base;
      assert CharSet(kids, base) == (if kids[0].Nil? then {} else {b}) + CharSet(tail, base + 1);
    }
  }

  lemma SetOfCons(chars: seq<byte>)
    requires chars != []
    ensures SetOf(chars) == {chars[0]} + SetOf(chars[1..])
  {
    forall c ensures c in chars <==> c == chars[0] || c in chars[1..] { assert chars == [chars[0]] + chars[1..]; }
  }

  lemma {:induction false} DistinctSize(chars: seq<byte>)
    requires Distinct(chars)
    ensures |SetOf(chars)| == |chars|
    decreases |chars|
  {
    if chars == [] {
      assert SetOf(chars) == {};
    } else {
      SetOfCons(chars);
      DistinctSize(chars[1..]);
      assert chars[0] !in chars[1..];
    }
  }

  lemma {:induction false} AllNonNil(kids: seq<Trie>)
    requires forall i :: 0 <= i < |kids| ==> kids[i].Node?
    ensures NonNil(kids) == |kids|
    decreases |kids|
  {
    if kids != [] { AllNonNil(kids[1..]); }
  }
}
