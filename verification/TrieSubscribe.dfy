/**
 * What nn_trie_subscribe does to the table of counts, for every well-formed trie and every string.
 */
module TrieSubscribe {
  import opened Bytes
  import opened Trie
  import opened TrieMeaning

  // ------------------------------------------------------------------------ counting children

  lemma {:induction false} NonNilConcat(a: seq<Trie>, b: seq<Trie>)
    ensures NonNil(a + b) == NonNil(a) + NonNil(b)
    decreases |a|
  {
    if a == [] {
      assert a + b == b;
    } else {
      assert (a + b)[1..] == a[1..] + b;
      NonNilConcat(a[1..], b);
    }
  }

  lemma {:induction false} NonNilOfNils(s: seq<Trie>)
    requires forall i :: 0 <= i < |s| ==> s[i].Nil?
    ensures NonNil(s) == 0
    decreases |s|
  {
    if s != [] { NonNilOfNils(s[1..]); }
  }

  lemma NonNilUpdate(kids: seq<Trie>, i: nat, k: Trie)
    requires i < |kids|
    ensures NonNil(kids[i := k]) ==
            NonNil(kids) - (if kids[i].Nil? then 0 else 1) + (if k.Nil? then 0 else 1)
  {
    var a, b := kids[..i], kids[i + 1..];
    assert kids == a + ([kids[i]] + b);
    assert kids[i := k] == a + ([k] + b);
    NonNilConcat(a, [kids[i]] + b);
    NonNilConcat(a, [k] + b);
  }

  // ------------------------------------------------------------------------- moving a prefix

  lemma SamePrefix(q: seq<byte>, a: seq<byte>, b: seq<byte>)
    ensures q + a <= q + b <==> a <= b
  {
    assert (q + a)[|q|..] == a && (q + b)[|q|..] == b;
    if q + a <= q + b { assert forall i :: 0 <= i < |a| ==> a[i] == (q + a)[|q| + i] == (q + b)[|q| + i] == b[i]; }
  }

  /** A longer prefix in front of the same node reads the same strings one walk later. */
  lemma Prepend(n: Trie, q: seq<byte>, y: seq<byte>)
    requires n.Node?
    ensures Count(n.(prefix := q + n.prefix), q + y) == Count(n, y)
  {
    var m := n.(prefix := q + n.prefix);
    SamePrefix(q, n.prefix, y);
    if n.prefix <= y {
      assert y == n.prefix + y[|n.prefix|..];
      assert q + y == m.prefix + y[|n.prefix|..];
      assert (q + y)[|m.prefix|..] == y[|n.prefix|..];
      forall c ensures Next(m, c) == Next(n, c) {}
    }
  }

  /** A node with one child reads what the child reads, once the two prefixes are joined. */
  lemma OneChild(p: seq<byte>, c: byte, ch: Trie, x: seq<byte>)
    requires ch.Node?
    ensures Count(Node(0, p, Sparse([c]), [ch]), x) == Count(ch.(prefix := p + [c] + ch.prefix), x)
  {
    var t := Node(0, p, Sparse([c]), [ch]);
    var q := p + [c];
    if q <= x {
      var y := x[|q|..];
      assert x == q + y;
      CountBelow(t, c, y);
      Prepend(ch, q, y);
    } else {
      CountCases(t, x);
      if p <= x && |x| > |p| {
        assert x[|p|] != c;
        assert Next(t, x[|p|]).Nil?;
      } else if p <= x {
        assert x == p;
        CountAtPrefix(t);
      }
    }
  }

  lemma CompactKeepsCounts(t: Trie, x: seq<byte>)
    requires t.Node? && LayoutOk(t.layout, t.kids)
    ensures Count(Compact(t), x) == Count(t, x)
  {
    if Compact(t) != t {
      var c := t.layout.chars[0];
      assert t == Node(0, t.prefix, Sparse([c]), [t.kids[0]]);
      OneChild(t.prefix, c, t.kids[0], x);
    }
  }

  lemma CompactKeepsShape(t: Trie)
    requires t.Node? && WellFormed(t)
    ensures WellFormed(Compact(t))
  {
    if Compact(t) != t { assert WellFormed(t.kids[0]); }
  }

  lemma SplitKeepsCounts(t: Trie, pos: nat, x: seq<byte>)
    requires t.Node? && LayoutOk(t.layout, t.kids) && pos < |t.prefix|
    ensures Count(Split(t, pos), x) == Count(t, x)
  {
    var lower := t.(prefix := t.prefix[pos + 1..]);
    var p, c := t.prefix[..pos], t.prefix[pos];
    var merged := Compact(lower);
    var q := p + [c];
    OneChild(p, c, merged, x);
    assert t == lower.(prefix := q + lower.prefix) by { assert t.prefix == q + lower.prefix; }
    var m := merged.(prefix := q + merged.prefix);
    if q <= x {
      var y := x[|q|..];
      assert x == q + y;
      Prepend(merged, q, y);
      Prepend(lower, q, y);
      CompactKeepsCounts(lower, y);
    }
  }

  lemma SplitKeepsShape(t: Trie, pos: nat)
    requires t.Node? && WellFormed(t) && pos < |t.prefix|
    ensures WellFormed(Split(t, pos))
  {
    CompactKeepsShape(t.(prefix := t.prefix[pos + 1..]));
  }

  // -------------------------------------------------------------------------- adding a child

  lemma IndexOfAppend(chars: seq<byte>, c: byte, d: byte)
    requires c !in chars
    ensures IndexOf(chars + [c], d) == if d == c then |chars| else IndexOf(chars, d)
  {
    var i := IndexOf(chars + [c], d);
    if d != c && i != -1 { assert chars[i] == d; }
    if d != c && d in chars { assert (chars + [c])[IndexOf(chars, d)] == d; }
  }

  /** Widening adds empty slots only. */
  lemma WidenShape(t: Trie, c: byte)
    requires t.Node? && t.layout.Dense? && LayoutOk(t.layout, t.kids)
    ensures NonNil(Widen(t, c).kids) == NonNil(t.kids)
    ensures forall d :: Next(Widen(t, c), d) == Next(t, d)
  {
    var w := Widen(t, c);
    var before, after := Nils(t.layout.min - w.layout.min), Nils(w.layout.max - t.layout.max);
    assert w.kids == before + (t.kids + after);
    NonNilConcat(before, t.kids + after);
    NonNilConcat(t.kids, after);
    NonNilOfNils(before);
    NonNilOfNils(after);
  }

  lemma FilledShape(w: Trie, c: byte, k: Trie)
    requires w.Node? && w.layout.Dense? && w.layout.min <= c <= w.layout.max
    requires |w.kids| == w.layout.max - w.layout.min + 1 && Next(w, c).Nil? && k.Node?
    ensures NonNil(w.kids[c - w.layout.min := k]) == NonNil(w.kids) + 1
  {
    NonNilUpdate(w.kids, c - w.layout.min, k);
  }

  lemma FilledNext(w: Trie, c: byte, k: Trie, nbr: nat, d: byte)
    requires w.Node? && w.layout.Dense? && w.layout.min <= c <= w.layout.max
    requires |w.kids| == w.layout.max - w.layout.min + 1
    ensures Next(w.(layout := w.layout.(nbr := nbr), kids := w.kids[c - w.layout.min := k]), d) ==
            if d == c then k else Next(w, d)
  {
  }

  lemma WidenedNext(t: Trie, c: byte, k: Trie, d: byte)
    requires t.Node? && t.layout.Dense? && LayoutOk(t.layout, t.kids)
    ensures Next(AddChild(t, c, k), d) == if d == c then k else Next(t, d)
  {
    var w := Widen(t, c);
    WidenShape(t, c);
    FilledNext(w, c, k, w.layout.nbr + 1, d);
  }

  lemma WidenedLayout(t: Trie, c: byte, k: Trie)
    requires t.Node? && t.layout.Dense? && LayoutOk(t.layout, t.kids) && Next(t, c).Nil? && k.Node?
    ensures LayoutOk(AddChild(t, c, k).layout, AddChild(t, c, k).kids)
  {
    var w, r := Widen(t, c), AddChild(t, c, k);
    WidenShape(t, c);
    FilledShape(w, c, k);
    WidenedNext(t, c, k, w.layout.min);
    WidenedNext(t, c, k, w.layout.max);
    assert r.kids[0] == Next(r, w.layout.min) && r.kids[|r.kids| - 1] == Next(r, w.layout.max);
  }

  lemma SpreadChars(t: Trie, lo: nat, n: nat)
    requires t.Node? && t.layout.Sparse? && LayoutOk(t.layout, t.kids) && lo + n <= 256
    requires forall c :: c in t.layout.chars ==> lo <= c < lo + n
    ensures NonNil(Spread(t, lo, n)) == |t.kids|
  {
    var s := Spread(t, lo, n);
    CharSetSize(s, lo);
    DistinctSize(t.layout.chars);
    forall c: byte ensures HasKid(s, lo, c) <==> c in t.layout.chars {
      if c in t.layout.chars { assert s[c - lo] == Next(t, c); }
      if HasKid(s, lo, c) { assert s[c - lo] == Next(t, c); }
    }
    assert CharSet(s, lo) == SetOf(t.layout.chars);
  }

  lemma CharRange(t: Trie, c: byte, d: byte)
    requires t.Node? && t.layout.Sparse? && (d == c || Next(t, d).Node?)
    ensures MinOf(t.layout.chars, c) <= d <= MaxOf(t.layout.chars, c)
  {
    var chars := t.layout.chars;
    if d != c { assert chars[IndexOf(chars, d)] == d; }
  }

  /** A dense node over the range from `lo` to `hi`, with `k` for the character `c`. */
  ghost function SpreadNode(t: Trie, lo: byte, hi: byte, c: byte, k: Trie, count: nat): Trie
    requires t.Node? && lo <= c <= hi
  {
    Node(0, t.prefix, Dense(lo, hi, count), Spread(t, lo, hi as int - lo + 1)[c as int - lo := k])
  }

  lemma SpreadNext(t: Trie, lo: byte, hi: byte, c: byte, k: Trie, d: byte, count: nat)
    requires t.Node? && lo <= c <= hi && (Next(t, d).Node? ==> lo <= d <= hi)
    ensures Next(SpreadNode(t, lo, hi, c, k, count), d) == if d == c then k else Next(t, d)
  {
    var s := Spread(t, lo, hi as int - lo + 1);
    if lo <= d <= hi { assert s[d as int - lo] == Next(t, d); }
  }

  lemma ConvertedIs(t: Trie, c: byte, k: Trie)
    requires t.Node? && t.layout.Sparse?
    ensures var lo, hi := MinOf(t.layout.chars, c), MaxOf(t.layout.chars, c);
            lo <= c <= hi && ToDense(t, c, k) == SpreadNode(t, lo, hi, c, k, |t.layout.chars| + 1)
  {
    CharRange(t, c, c);
  }

  lemma ConvertedNext(t: Trie, c: byte, k: Trie, d: byte)
    requires t.Node? && t.layout.Sparse?
    ensures Next(ToDense(t, c, k), d) == if d == c then k else Next(t, d)
  {
    ConvertedIs(t, c, k);
    if Next(t, d).Node? { CharRange(t, c, d); }
    SpreadNext(t, MinOf(t.layout.chars, c), MaxOf(t.layout.chars, c), c, k, d, |t.layout.chars| + 1);
  }

  lemma CharHasChild(t: Trie, d: byte)
    requires t.Node? && t.layout.Sparse? && LayoutOk(t.layout, t.kids)
    ensures Next(t, d).Node? <==> d in t.layout.chars
  {
  }

  /** A slot filled among laid-out children that reach both ends of the range. */
  lemma FilledSeq(s: seq<Trie>, i: nat, k: Trie)
    requires i < |s| && s[i].Nil? && k.Node?
    requires (i == 0 || s[0].Node?) && (i == |s| - 1 || s[|s| - 1].Node?)
    ensures NonNil(s[i := k]) == NonNil(s) + 1 && s[i := k][0].Node? && s[i := k][|s| - 1].Node?
  {
    NonNilUpdate(s, i, k);
  }

  lemma DenseLayout(lo: byte, hi: byte, s: seq<Trie>)
    requires lo <= hi && |s| == hi as int - lo + 1
    requires NonNil(s) == SPARSE_MAX + 1 && s[0].Node? && s[|s| - 1].Node?
    ensures LayoutOk(Dense(lo, hi, SPARSE_MAX + 1), s)
  {
  }

  /** Both ends of the range are reached, by an old child or by the new one. */
  lemma ConvertedEnds(t: Trie, c: byte, lo: byte, hi: byte)
    requires t.Node? && t.layout.Sparse? && LayoutOk(t.layout, t.kids)
    requires lo == MinOf(t.layout.chars, c) && hi == MaxOf(t.layout.chars, c)
    ensures lo <= c <= hi && (lo == c || Next(t, lo).Node?) && (hi == c || Next(t, hi).Node?)
  {
    CharHasChild(t, lo);
    CharHasChild(t, hi);
  }

  lemma ConvertedSlots(t: Trie, c: byte, k: Trie, lo: byte, hi: byte)
    requires t.Node? && Next(t, c).Nil? && k.Node?
    requires lo <= c <= hi && (lo == c || Next(t, lo).Node?) && (hi == c || Next(t, hi).Node?)
    requires NonNil(Spread(t, lo, hi as int - lo + 1)) == SPARSE_MAX
    ensures LayoutOk(Dense(lo, hi, SPARSE_MAX + 1), Spread(t, lo, hi as int - lo + 1)[c as int - lo := k])
  {
    var s := Spread(t, lo, hi as int - lo + 1);
    assert s[c as int - lo] == Next(t, c) && s[0] == Next(t, lo) && s[|s| - 1] == Next(t, hi);
    FilledSeq(s, c as int - lo, k);
    DenseLayout(lo, hi, s[c as int - lo := k]);
  }

  lemma ConvertedLayout(t: Trie, c: byte, k: Trie)
    requires FullSparse(t) && LayoutOk(t.layout, t.kids) && Next(t, c).Nil? && k.Node?
    ensures LayoutOk(ToDense(t, c, k).layout, ToDense(t, c, k).kids)
  {
    var lo, hi := MinOf(t.layout.chars, c), MaxOf(t.layout.chars, c);
    ConvertedEnds(t, c, lo, hi);
    ConvertedCount(t, c, lo, hi);
    ConvertedSlots(t, c, k, lo, hi);
  }

  lemma ConvertedCount(t: Trie, c: byte, lo: byte, hi: byte)
    requires FullSparse(t) && LayoutOk(t.layout, t.kids)
    requires lo == MinOf(t.layout.chars, c) && hi == MaxOf(t.layout.chars, c)
    ensures NonNil(Spread(t, lo, hi as int - lo + 1)) == SPARSE_MAX
  {
    forall d | d in t.layout.chars ensures lo <= d <= hi {
      CharHasChild(t, d);
      CharRange(t, c, d);
    }
    SpreadChars(t, lo, hi as int - lo + 1);
  }

  ghost predicate FullSparse(t: Trie) {
    t.Node? && t.layout.Sparse? && |t.kids| == SPARSE_MAX
  }

  lemma AddChildAppended(t: Trie, c: byte, k: Trie)
    requires t.Node? && t.layout.Sparse? && !FullSparse(t) && LayoutOk(t.layout, t.kids)
    requires Next(t, c).Nil? && k.Node?
    ensures LayoutOk(AddChild(t, c, k).layout, AddChild(t, c, k).kids)
    ensures forall d :: Next(AddChild(t, c, k), d) == if d == c then k else Next(t, d)
  {
    var chars := t.layout.chars;
    forall d: byte ensures IndexOf(chars + [c], d) == if d == c then |chars| else IndexOf(chars, d) {
      IndexOfAppend(chars, c, d);
    }
  }

  /** Every child is reached by some character. */
  lemma KidsByNext(t: Trie)
    requires t.Node? && LayoutOk(t.layout, t.kids)
    requires forall c :: WellFormed(Next(t, c))
    ensures forall i :: 0 <= i < |t.kids| ==> WellFormed(t.kids[i])
  {
    forall i | 0 <= i < |t.kids| ensures WellFormed(t.kids[i]) {
      var c: byte := if t.layout.Sparse? then t.layout.chars[i] else t.layout.min + i;
      assert t.kids[i] == Next(t, c);
    }
  }

  /** Whatever the layout, the new child appears, the others stay, and only a conversion resets the node's count. */
  lemma AddChildNext(t: Trie, c: byte, k: Trie)
    requires t.Node? && WellFormed(t) && Next(t, c).Nil?
    requires k.Node? && WellFormed(k)
    ensures WellFormed(AddChild(t, c, k))
    ensures AddChild(t, c, k).prefix == t.prefix
    ensures AddChild(t, c, k).refcount == if FullSparse(t) then 0 else t.refcount
    ensures forall d :: Next(AddChild(t, c, k), d) == if d == c then k else Next(t, d)
  {
    var r := AddChild(t, c, k);
    if t.layout.Dense? {
      WidenedLayout(t, c, k);
      forall d: byte ensures Next(r, d) == if d == c then k else Next(t, d) { WidenedNext(t, c, k, d); }
    } else if FullSparse(t) {
      ConvertedLayout(t, c, k);
      forall d: byte ensures Next(r, d) == if d == c then k else Next(t, d) { ConvertedNext(t, c, k, d); }
    } else {
      AddChildAppended(t, c, k);
    }
    forall d ensures WellFormed(Next(r, d)) { NextWellFormed(t, d); }
    KidsByNext(r);
  }

  lemma {:induction false} ChainIsOneString(data: seq<byte>)
    ensures WellFormed(Chain(data))
    ensures forall x :: Count(Chain(data), x) == if x == data then 1 else 0
    decreases |data|
  {
    if |data| > PREFIX_MAX {
      var t := Chain(data);
      var c, rest := data[PREFIX_MAX], data[PREFIX_MAX + 1..];
      ChainIsOneString(rest);
      assert data == t.prefix + [c] + rest;
      forall x ensures Count(t, x) == if x == data then 1 else 0 {
        CountCases(t, x);
        if t.prefix == x { CountAtPrefix(t); }
      }
    } else {
      forall x ensures Count(Chain(data), x) == if x == data then 1 else 0 {
        CountCases(Chain(data), x);
        if data == x { CountAtPrefix(Chain(data)); }
      }
    }
  }

  // ---------------------------------------------------------------------------- the theorem

  /**
   * The one side effect of a subscription: `p` is a proper prefix of the new string at which held
   * strings branch into exactly eight characters, the new one not among them.
   */
  ghost predicate LosesOnSubscribe(t: Trie, s: seq<byte>, p: seq<byte>) {
    && ProperPrefix(p, s)
    && |Branching(t, p)| == SPARSE_MAX
    && !HeldBelow(t, p, s[|p|])
  }

  /** The table after a subscription, from the table before. */
  ghost function AfterSubscribe(t: Trie, s: seq<byte>, x: seq<byte>): nat {
    if x == s then (Count(t, x) + 1) % REFCOUNT_MOD
    else if LosesOnSubscribe(t, s, x) then 0
    else Count(t, x)
  }

  lemma NoBranching(t: Trie, p: seq<byte>)
    requires forall c :: !HeldBelow(t, p, c)
    ensures |Branching(t, p)| == 0
  {
    assert Branching(t, p) == {};
  }

  lemma SameBranching(t: Trie, p: seq<byte>, u: Trie, q: seq<byte>)
    requires forall c :: HeldBelow(t, p, c) <==> HeldBelow(u, q, c)
    ensures Branching(t, p) == Branching(u, q)
  {
  }

  lemma BranchingChild(t: Trie, c: byte, q: seq<byte>)
    requires t.Node?
    ensures Branching(t, t.prefix + [c] + q) == Branching(Next(t, c), q)
  {
    forall d: byte ensures HeldBelow(t, t.prefix + [c] + q, d) <==> HeldBelow(Next(t, c), q, d) {
      HeldBelowChild(t, c, q, d);
    }
    SameBranching(t, t.prefix + [c] + q, Next(t, c), q);
  }

  lemma FullByBranching(t: Trie)
    requires t.Node? && WellFormed(t)
    ensures |Branching(t, t.prefix)| == SPARSE_MAX <==> FullSparse(t)
  {
    BranchingHere(t);
    if t.layout.Sparse? { AllNonNil(t.kids); }
  }

  /** Cutting a string at a node's prefix. */
  lemma CutAt(p: seq<byte>, s: seq<byte>)
    requires p <= s && |p| < |s|
    ensures s == p + [s[|p|]] + s[|p| + 1..] && s[|p|..] == [s[|p|]] + s[|p| + 1..]
  {
  }

  /** Where the walk ends at a node without the next child, only that node can lose its count. */
  lemma LosesHere(t: Trie, s: seq<byte>, x: seq<byte>)
    requires t.Node? && WellFormed(t) && ProperPrefix(t.prefix, s) && Next(t, s[|t.prefix|]).Nil?
    ensures LosesOnSubscribe(t, s, x) <==> FullSparse(t) && x == t.prefix
  {
    var n := |t.prefix|;
    if ProperPrefix(x, s) {
      if |x| < n {
        assert x == s[..|x|] == t.prefix[..|x|];
        FewInside(t, x);
      } else if |x| == n {
        assert x == s[..n] == t.prefix;
        FullByBranching(t);
        HeldBelowHere(t, s[n]);
      } else {
        CutAt(t.prefix, x);
        assert x[n] == s[n];
        BranchingChild(t, x[n], x[n + 1..]);
        NoBranching(Nil, x[n + 1..]);
      }
    }
  }

  /** Below a child, a loss is a loss in the child. */
  lemma LosesThrough(t: Trie, c: byte, tail: seq<byte>, q: seq<byte>)
    requires t.Node?
    ensures LosesOnSubscribe(t, t.prefix + [c] + tail, t.prefix + [c] + q) <==>
            LosesOnSubscribe(Next(t, c), tail, q)
  {
    var p := t.prefix + [c];
    SamePrefix(p, q, tail);
    BranchingChild(t, c, q);
    if ProperPrefix(q, tail) {
      assert (p + tail)[|p + q|] == tail[|q|];
      HeldBelowChild(t, c, q, tail[|q|]);
    }
  }

  /** Where the walk goes on, nothing is lost on the way. */
  lemma LosesDeeper(t: Trie, s: seq<byte>, x: seq<byte>)
    requires t.Node? && WellFormed(t) && ProperPrefix(t.prefix, s) && Next(t, s[|t.prefix|]).Node?
    requires !(t.prefix + [s[|t.prefix|]] <= x)
    ensures !LosesOnSubscribe(t, s, x)
  {
    var n := |t.prefix|;
    if ProperPrefix(x, s) {
      if |x| < n {
        assert x == s[..|x|] == t.prefix[..|x|];
        FewInside(t, x);
      } else {
        assert |x| == n;
        assert x == s[..n] == t.prefix;
        HeldBelowHere(t, s[n]);
      }
    }
  }

  /** Where the string leaves the prefix midway, nothing is lost. */
  lemma LosesNothingInside(t: Trie, s: seq<byte>, x: seq<byte>)
    requires t.Node? && WellFormed(t) && CheckPrefix(t.prefix, s) < |t.prefix|
    ensures !LosesOnSubscribe(t, s, x)
  {
    var pos := CheckPrefix(t.prefix, s);
    if ProperPrefix(x, s) {
      if |x| <= pos {
        assert x == s[..pos][..|x|] == t.prefix[..pos][..|x|] == t.prefix[..|x|];
        FewInside(t, x);
      } else {
        NoBranching(t, x);
      }
    }
  }

  /** The table of a node that differs in its count and in what one character reaches. */
  lemma CountWithKid(t: Trie, r: Trie, c: byte, k: Trie, x: seq<byte>)
    requires t.Node? && r.Node? && r.prefix == t.prefix
    requires forall d :: Next(r, d) == if d == c then k else Next(t, d)
    ensures Count(r, x) ==
            if x == t.prefix then r.refcount
            else if t.prefix + [c] <= x then Count(k, x[|t.prefix| + 1..])
            else Count(t, x)
  {
    CountCases(t, x);
    CountCases(r, x);
    if t.prefix == x { CountAtPrefix(r); }
  }

  /** Steps 3 to 5 at the node where the walk ends. */
  lemma ExtendCount(t: Trie, rest: seq<byte>, x: seq<byte>)
    requires t.Node? && WellFormed(t)
    requires rest != [] ==> Next(t, rest[0]).Nil?
    ensures Count(Extend(t, rest).trie, x) ==
            if x == t.prefix + rest then (Count(t, x) + 1) % REFCOUNT_MOD
            else if rest != [] && FullSparse(t) && x == t.prefix then 0
            else Count(t, x)
    ensures Extend(t, rest).rc == if Count(t, t.prefix + rest) == 0 then 1 else 0
    ensures rest != [] ==> WellFormed(Extend(t, rest).trie)
  {
    if rest == [] {
      assert t.prefix + rest == t.prefix;
      CountAtPrefix(t);
      ReferCount(t, x);
    } else {
      AddedCount(t, rest, x);
    }
  }

  lemma AddedCount(t: Trie, rest: seq<byte>, x: seq<byte>)
    requires t.Node? && WellFormed(t) && rest != [] && Next(t, rest[0]).Nil?
    ensures var r := AddChild(t, rest[0], Chain(rest[1..]));
            && WellFormed(r)
            && Count(r, x) == (if x == t.prefix + rest then 1
                               else if FullSparse(t) && x == t.prefix then 0
                               else Count(t, x))
            && Count(t, t.prefix + rest) == 0
  {
    var c, k := rest[0], Chain(rest[1..]);
    assert t.prefix + rest == t.prefix + [c] + rest[1..];
    ChainIsOneString(rest[1..]);
    AddChildNext(t, c, k);
    CountBelow(t, c, rest[1..]);
    CountAdded(t, AddChild(t, c, k), c, k, rest[1..], x);
  }

  /** A node that has got one child, holding one string, for a character without one. */
  lemma CountAdded(t: Trie, r: Trie, c: byte, k: Trie, tail: seq<byte>, x: seq<byte>)
    requires t.Node? && r.Node? && r.prefix == t.prefix && Next(t, c).Nil?
    requires forall d :: Next(r, d) == if d == c then k else Next(t, d)
    requires forall y :: Count(k, y) == if y == tail then 1 else 0
    ensures Count(r, x) == if x == t.prefix + [c] + tail then 1
                           else if x == t.prefix then r.refcount
                           else Count(t, x)
    ensures x == t.prefix ==> Count(t, x) == t.refcount
  {
    var q := t.prefix + [c];
    CountWithKid(t, r, c, k, x);
    if x == t.prefix { CountAtPrefix(t); }
    if q <= x {
      var y := x[|q|..];
      assert x == q + y;
      CountBelow(t, c, y);
      if y != tail && x == q + tail { SamePrefix(q, y, tail); }
    }
  }

  lemma ReferCount(t: Trie, x: seq<byte>)
    requires t.Node?
    ensures Count(Refer(t).trie, x) == if x == t.prefix then (Count(t, x) + 1) % REFCOUNT_MOD else Count(t, x)
  {
    var r := Refer(t).trie;
    CountCases(t, x);
    CountCases(r, x);
    forall c ensures Next(r, c) == Next(t, c) {}
    if t.prefix == x { CountAtPrefix(t); CountAtPrefix(r); }
  }

  lemma SplitPath(t: Trie, data: seq<byte>)
    requires t.Node? && WellFormed(t) && CheckPrefix(t.prefix, data) < |t.prefix|
    ensures var pos := CheckPrefix(t.prefix, data);
            var u := Split(t, pos);
            && u.prefix + data[pos..] == data
            && !FullSparse(u)
            && (data[pos..] != [] ==> Next(u, data[pos..][0]).Nil?)
  {
    var pos := CheckPrefix(t.prefix, data);
    assert t.prefix[..pos] + data[pos..] == data[..pos] + data[pos..] == data;
  }

  lemma SubscribeNil(data: seq<byte>, x: seq<byte>)
    ensures Count(Subscribe(Nil, data).trie, x) == AfterSubscribe(Nil, data, x)
    ensures Subscribe(Nil, data).rc == 1
  {
    ChainIsOneString(data);
    NoBranching(Nil, x);
  }

  lemma SubscribeSplit(t: Trie, data: seq<byte>, x: seq<byte>)
    requires t.Node? && WellFormed(t) && CheckPrefix(t.prefix, data) < |t.prefix|
    ensures Count(Subscribe(t, data).trie, x) == AfterSubscribe(t, data, x)
    ensures Subscribe(t, data).rc == if Count(t, data) == 0 then 1 else 0
  {
    var pos := CheckPrefix(t.prefix, data);
    SplitPath(t, data);
    SplitKeepsShape(t, pos);
    SplitKeepsCounts(t, pos, x);
    SplitKeepsCounts(t, pos, data);
    ExtendCount(Split(t, pos), data[pos..], x);
    LosesNothingInside(t, data, x);
  }

  lemma SubscribeHere(t: Trie, x: seq<byte>)
    requires t.Node? && WellFormed(t)
    ensures Count(Refer(t).trie, x) == AfterSubscribe(t, t.prefix, x)
    ensures Refer(t).rc == if Count(t, t.prefix) == 0 then 1 else 0
  {
    CountAtPrefix(t);
    ReferCount(t, x);
    if ProperPrefix(x, t.prefix) { FewInside(t, x); }
  }

  lemma SubscribeAdded(t: Trie, rest: seq<byte>, x: seq<byte>)
    requires t.Node? && WellFormed(t) && rest != [] && Next(t, rest[0]).Nil?
    ensures Count(Extend(t, rest).trie, x) == AfterSubscribe(t, t.prefix + rest, x)
    ensures Extend(t, rest).rc == if Count(t, t.prefix + rest) == 0 then 1 else 0
  {
    ExtendCount(t, rest, x);
    LosesHere(t, t.prefix + rest, x);
  }

  /** Every subscription changes the table exactly as AfterSubscribe says, and reports a new string. */
  lemma {:induction false} SubscribeCount(t: Trie, data: seq<byte>, x: seq<byte>)
    requires WellFormed(t)
    ensures Count(Subscribe(t, data).trie, x) == AfterSubscribe(t, data, x)
    ensures Subscribe(t, data).rc == if Count(t, data) == 0 then 1 else 0
    decreases |data|
  {
    if t.Nil? {
      SubscribeNil(data, x);
    } else if CheckPrefix(t.prefix, data) < |t.prefix| {
      SubscribeSplit(t, data, x);
    } else {
      var rest := data[|t.prefix|..];
      assert data == t.prefix + rest;
      if rest == [] {
        assert data == t.prefix;
        SubscribeHere(t, x);
      } else if Next(t, rest[0]).Nil? {
        SubscribeAdded(t, rest, x);
      } else {
        SubscribeDeeper(t, data, x);
      }
    }
  }

  /** Where the walk goes on, only the child it goes to is replaced. */
  lemma SubscribeStep(t: Trie, data: seq<byte>)
    requires t.Node? && WellFormed(t) && ProperPrefix(t.prefix, data) && Next(t, data[|t.prefix|]).Node?
    requires CheckPrefix(t.prefix, data) == |t.prefix|
    ensures WellFormed(Next(t, data[|t.prefix|]))
    ensures var c := data[|t.prefix|];
            var r, sub := Subscribe(t, data), Subscribe(Next(t, c), data[|t.prefix| + 1..]);
            && r.rc == sub.rc && r.trie.Node? && r.trie.prefix == t.prefix && r.trie.refcount == t.refcount
            && forall d :: Next(r.trie, d) == if d == c then sub.trie else Next(t, d)
  {
    var n := |t.prefix|;
    CutAt(t.prefix, data);
    assert data[n..][0] == data[n] && data[n..][1..] == data[n + 1..];
    NextWellFormed(t, data[n]);
    ReplacedKid(t, data[n], Subscribe(Next(t, data[n]), data[n + 1..]).trie);
  }

  lemma {:induction false} SubscribeDeeper(t: Trie, data: seq<byte>, x: seq<byte>)
    requires t.Node? && WellFormed(t) && ProperPrefix(t.prefix, data) && Next(t, data[|t.prefix|]).Node?
    requires CheckPrefix(t.prefix, data) == |t.prefix|
    ensures Count(Subscribe(t, data).trie, x) == AfterSubscribe(t, data, x)
    ensures Subscribe(t, data).rc == if Count(t, data) == 0 then 1 else 0
    decreases |data|, 1
  {
    var n := |t.prefix|;
    var c, tail := data[n], data[n + 1..];
    CutAt(t.prefix, data);
    SubscribeStep(t, data);
    CountBelow(t, c, tail);
    SubscribeCount(Next(t, c), tail, tail);
    if t.prefix + [c] <= x {
      SubscribeThrough(t, data, x);
    } else {
      CountWithKid(t, Subscribe(t, data).trie, c, Subscribe(Next(t, c), tail).trie, x);
      if t.prefix == x { CountAtPrefix(t); }
      LosesDeeper(t, data, x);
    }
  }

  lemma {:induction false} SubscribeThrough(t: Trie, data: seq<byte>, x: seq<byte>)
    requires t.Node? && WellFormed(t) && ProperPrefix(t.prefix, data) && Next(t, data[|t.prefix|]).Node?
    requires CheckPrefix(t.prefix, data) == |t.prefix| && t.prefix + [data[|t.prefix|]] <= x
    ensures Count(Subscribe(t, data).trie, x) == AfterSubscribe(t, data, x)
    decreases |data|, 0
  {
    var n := |t.prefix|;
    var c, tail, y := data[n], data[n + 1..], x[n + 1..];
    CutAt(t.prefix, data);
    SubscribeStep(t, data);
    assert x == t.prefix + [c] + y by { assert x == x[..n + 1] + y; }
    CountBelow(t, c, y);
    CountBelow(Subscribe(t, data).trie, c, y);
    SubscribeCount(Next(t, c), tail, y);
    LosesThrough(t, c, tail, y);
  }

  /** Replacing one child changes what its own character reaches and nothing else. */
  lemma ReplacedKid(t: Trie, c: byte, k: Trie)
    requires t.Node? && LayoutOk(t.layout, t.kids) && 0 <= Slot(t.layout, c) < |t.kids|
    ensures var r := t.(kids := t.kids[Slot(t.layout, c) := k]);
            forall d :: Next(r, d) == if d == c then k else Next(t, d)
  {
  }

  // -------------------------------------------------------------------------------- the shape

  lemma ReplacedKidLayout(layout: Layout, kids: seq<Trie>, i: nat, k: Trie)
    requires LayoutOk(layout, kids) && i < |kids| && kids[i].Node? && k.Node?
    ensures LayoutOk(layout, kids[i := k])
  {
    NonNilUpdate(kids, i, k);
  }

  lemma ReplacedKidShape(t: Trie, i: nat, k: Trie)
    requires t.Node? && WellFormed(t) && i < |t.kids| && t.kids[i].Node? && k.Node?
    ensures WellFormed(t.(kids := t.kids[i := k])) <==> WellFormed(k)
  {
    ReplacedKidLayout(t.layout, t.kids, i, k);
    var kids := t.kids[i := k];
    assert kids[i] == k;
    assert forall j :: 0 <= j < |kids| && j != i ==> kids[j] == t.kids[j];
  }

  lemma ChildrenByBranching(t: Trie)
    requires t.Node? && WellFormed(t)
    ensures t.kids != [] <==> exists c :: HeldBelow(t, t.prefix, c)
  {
    forall c: byte ensures HeldBelow(t, t.prefix, c) <==> Next(t, c).Node? { HeldBelowHere(t, c); }
    if t.kids != [] { var c := SomeChar(t); }
  }

  lemma ReferShape(t: Trie)
    requires t.Node? && WellFormed(t)
    ensures WellFormed(Refer(t).trie) <==> (t.refcount == REFCOUNT_MOD - 1 ==> t.kids != [])
  {
  }

  lemma SplitShape(t: Trie, data: seq<byte>)
    requires t.Node? && WellFormed(t) && CheckPrefix(t.prefix, data) < |t.prefix|
    ensures WellFormed(Subscribe(t, data).trie) && Count(t, data) == 0
  {
    var pos := CheckPrefix(t.prefix, data);
    var u, rest := Split(t, pos), data[pos..];
    SplitPath(t, data);
    SplitKeepsShape(t, pos);
    if rest == [] { ReferShape(u); } else { AddedCount(u, rest, data); }
  }

  /**
   * A subscription keeps the shape, unless the string's 32-bit count wraps to zero at a string
   * that no held string extends.
   */
  lemma {:induction false} SubscribeShape(t: Trie, data: seq<byte>)
    requires WellFormed(t)
    ensures WellFormed(Subscribe(t, data).trie) <==>
              (Count(t, data) == REFCOUNT_MOD - 1 ==> exists c :: HeldBelow(t, data, c))
    decreases |data|
  {
    if t.Nil? {
      ChainIsOneString(data);
    } else if CheckPrefix(t.prefix, data) < |t.prefix| {
      SplitShape(t, data);
    } else {
      var rest := data[|t.prefix|..];
      if rest == [] {
        assert data == t.prefix;
        CountAtPrefix(t);
        ChildrenByBranching(t);
        ReferShape(t);
      } else if Next(t, rest[0]).Nil? {
        AddedCount(t, rest, data);
        assert data == t.prefix + rest;
      } else {
        SubscribeShapeDeeper(t, data);
      }
    }
  }

  lemma {:induction false} SubscribeShapeDeeper(t: Trie, data: seq<byte>)
    requires t.Node? && WellFormed(t) && ProperPrefix(t.prefix, data) && Next(t, data[|t.prefix|]).Node?
    requires CheckPrefix(t.prefix, data) == |t.prefix|
    ensures WellFormed(Subscribe(t, data).trie) <==>
              (Count(t, data) == REFCOUNT_MOD - 1 ==> exists c :: HeldBelow(t, data, c))
    decreases |data|, 0
  {
    var n := |t.prefix|;
    var c, tail := data[n], data[n + 1..];
    CutAt(t.prefix, data);
    assert data[n..][0] == c && data[n..][1..] == tail;
    CountBelow(t, c, tail);
    NextWellFormed(t, c);
    var k := Next(t, c);
    SubscribeShape(k, tail);
    ReplacedKidShape(t, Slot(t.layout, c), Subscribe(k, tail).trie);
    forall d: byte ensures HeldBelow(t, data, d) <==> HeldBelow(k, tail, d) { HeldBelowChild(t, c, tail, d); }
  }
}
