/**
 * What nn_trie_unsubscribe does to the table of counts: for a string that is held, and for one
 * that is not.
 */
module TrieUnsubscribe {
  import opened Bytes
  import opened Trie
  import opened TrieMeaning
  import opened TrieSubscribe
  import opened Wrappers

  // ------------------------------------------------------------------------ removing a child

  lemma IndexOfRemove(chars: seq<byte>, i: nat, d: byte)
    requires Distinct(chars) && i < |chars|
    ensures IndexOf(chars[..i] + chars[i + 1..], d) ==
            if d == chars[i] then -1
            else if IndexOf(chars, d) > i then IndexOf(chars, d) - 1
            else IndexOf(chars, d)
  {
    var s := chars[..i] + chars[i + 1..];
    var j, m := IndexOf(s, d), IndexOf(chars, d);
    assert forall k :: 0 <= k < |s| ==> s[k] == if k < i then chars[k] else chars[k + 1];
    if m != -1 && m != i { assert s[if m > i then m - 1 else m] == d; }
    if j != -1 { assert chars[if j < i then j else j + 1] == d; }
  }

  lemma RemovedFromSparse(t: Trie, i: nat)
    requires t.Node? && t.layout.Sparse? && LayoutOk(t.layout, t.kids) && i < |t.kids|
    ensures var r := t.(layout := Sparse(t.layout.chars[..i] + t.layout.chars[i + 1..]),
                        kids := t.kids[..i] + t.kids[i + 1..]);
            && LayoutOk(r.layout, r.kids)
            && forall d :: Next(r, d) == if d == t.layout.chars[i] then Nil else Next(t, d)
  {
    forall d: byte { IndexOfRemove(t.layout.chars, i, d); }
  }

  lemma NonNilDropNils(kids: seq<Trie>, i: nat)
    requires i <= |kids| && forall j :: 0 <= j < i ==> kids[j].Nil?
    ensures NonNil(kids[i..]) == NonNil(kids)
  {
    assert kids == kids[..i] + kids[i..];
    NonNilConcat(kids[..i], kids[i..]);
    NonNilOfNils(kids[..i]);
  }

  lemma NonNilTakeNils(kids: seq<Trie>, i: nat)
    requires i <= |kids| && forall j :: i <= j < |kids| ==> kids[j].Nil?
    ensures NonNil(kids[..i]) == NonNil(kids)
  {
    assert kids == kids[..i] + kids[i..];
    NonNilConcat(kids[..i], kids[i..]);
    NonNilOfNils(kids[i..]);
  }

  lemma SomeNonNil(kids: seq<Trie>)
    requires NonNil(kids) > 0
    ensures exists i :: 0 <= i < |kids| && kids[i].Node?
  {
    if forall i :: 0 <= i < |kids| ==> kids[i].Nil? { NonNilOfNils(kids); }
  }

  /** `t` is a dense node one of whose children has just gone. */
  ghost predicate Emptied(t: Trie, c: byte) {
    && t.Node? && t.layout.Dense? && t.layout.min <= c <= t.layout.max
    && |t.kids| == t.layout.max - t.layout.min + 1
    && Next(t, c).Nil?
    && t.layout.nbr == NonNil(t.kids) + 1 > SPARSE_MAX
    && (c != t.layout.min ==> t.kids[0].Node?)
    && (c != t.layout.max ==> t.kids[|t.kids| - 1].Node?)
    && (t.kids[0].Node? || t.kids[|t.kids| - 1].Node?)
  }

  /** What trimming or narrowing a dense node must leave behind. */
  ghost predicate SameChildren(r: Outcome, t: Trie, refcount: nat)
    requires t.Node?
  {
    && r.Done? && r.rc == 1 && r.trie.Node?
    && r.trie.prefix == t.prefix && r.trie.refcount == refcount && r.trie.kids != []
    && LayoutOk(r.trie.layout, r.trie.kids)
    && forall d :: Next(r.trie, d) == Next(t, d)
  }

  /** Leading empty slots reach nothing. */
  lemma DroppedNext(t: Trie, i: nat, nbr: nat, d: byte)
    requires t.Node? && t.layout.Dense? && |t.kids| == t.layout.max as int - t.layout.min + 1
    requires i < |t.kids| && forall j :: 0 <= j < i ==> t.kids[j].Nil?
    ensures Next(Node(t.refcount, t.prefix, Dense(t.layout.min as int + i, t.layout.max, nbr), t.kids[i..]), d) ==
            Next(t, d)
  {
  }

  /** A dense node without its leading empty slots. */
  function LeftTrimmed(t: Trie): Trie
    requires t.Node? && t.layout.Dense? && FirstNonNil(t.kids) <= |t.kids| && t.layout.nbr > 0
    requires t.layout.min as int + FirstNonNil(t.kids) < 256
  {
    var i := FirstNonNil(t.kids);
    Node(t.refcount, t.prefix, Dense(t.layout.min as int + i, t.layout.max, t.layout.nbr - 1), t.kids[i..])
  }

  lemma LeftTrimmedNext(t: Trie, c: byte)
    requires Emptied(t, c)
    ensures FirstNonNil(t.kids) < |t.kids| && t.layout.min as int + FirstNonNil(t.kids) < 256
    ensures forall d: byte :: Next(LeftTrimmed(t), d) == Next(t, d)
  {
    SomeNonNil(t.kids);
    forall d: byte ensures Next(LeftTrimmed(t), d) == Next(t, d) {
      DroppedNext(t, FirstNonNil(t.kids), t.layout.nbr - 1, d);
    }
  }

  lemma TrimmedLeft(t: Trie, c: byte)
    requires Emptied(t, c) && t.layout.nbr > SPARSE_MAX + 1 && c == t.layout.min
    ensures SameChildren(PruneDense(t, c), t, t.refcount)
  {
    LeftTrimmedNext(t, c);
    SomeNonNil(t.kids);
    NonNilDropNils(t.kids, FirstNonNil(t.kids));
    assert PruneDense(t, c) == Done(1, LeftTrimmed(t));
  }

  lemma TrimmedRight(t: Trie, c: byte)
    requires Emptied(t, c) && t.layout.nbr > SPARSE_MAX + 1 && c == t.layout.max != t.layout.min
    ensures SameChildren(PruneDense(t, c), t, t.refcount)
  {
    NonNilTakeNils(t.kids, LastNonNil(t.kids) + 1);
  }

  lemma FirstAtOnce(chars: seq<byte>, d: byte, i: nat)
    requires FirstAt(chars, d, i)
    ensures IndexOf(chars, d) == i
  {
  }

  lemma IndexOfCons(b: byte, chars: seq<byte>, d: byte)
    ensures IndexOf([b] + chars, d) ==
            if d == b then 0 else if IndexOf(chars, d) == -1 then -1 else IndexOf(chars, d) + 1
  {
    if d == b {
      FirstAtOnce([b] + chars, d, 0);
    } else if d in chars {
      FirstAtOnce([b] + chars, d, IndexOf(chars, d) + 1);
    }
  }

  /** What a character reaches in a sparse array. */
  ghost function Reached(chars: seq<byte>, subs: seq<Trie>, d: byte): Trie
    requires |chars| == |subs|
  {
    var i := IndexOf(chars, d);
    if i == -1 then Nil else subs[i]
  }

  lemma ReachedCons(b: byte, k: Trie, chars: seq<byte>, subs: seq<Trie>, d: byte)
    requires |chars| == |subs|
    ensures Reached([b] + chars, [k] + subs, d) == if d == b then k else Reached(chars, subs, d)
  {
    IndexOfCons(b, chars, d);
  }

  lemma GatheredStep(kids: seq<Trie>, base: nat, d: byte)
    requires kids != [] && base + |kids| <= 256
    ensures Reached(CharsOf(kids, base), KidsOf(kids), d) ==
            if kids[0].Node? && d == base then kids[0]
            else Reached(CharsOf(kids[1..], base + 1), KidsOf(kids[1..]), d)
  {
    var chars, subs := CharsOf(kids[1..], base + 1), KidsOf(kids[1..]);
    if kids[0].Node? {
      ReachedCons(base, kids[0], chars, subs, d);
    } else {
      assert CharsOf(kids, base) == chars && KidsOf(kids) == subs;
    }
  }

  /** Gathering the children of a dense array into a sparse one keeps what every character reaches. */
  lemma {:induction false} Gathered(kids: seq<Trie>, base: nat, d: byte)
    requires base + |kids| <= 256
    ensures Reached(CharsOf(kids, base), KidsOf(kids), d) ==
            (if base <= d < base + |kids| then kids[d - base] else Nil)
    decreases |kids|
  {
    if kids != [] {
      GatheredStep(kids, base, d);
      Gathered(kids[1..], base + 1, d);
    }
  }

  lemma {:induction false} CharsFrom(kids: seq<Trie>, base: nat)
    requires base + |kids| <= 256
    ensures forall i :: 0 <= i < |CharsOf(kids, base)| ==> base <= CharsOf(kids, base)[i]
    ensures Distinct(CharsOf(kids, base))
    decreases |kids|
  {
    if kids != [] {
      var chars := CharsOf(kids[1..], base + 1);
      CharsFrom(kids[1..], base + 1);
      assert CharsOf(kids, base) == if kids[0].Nil? then chars else [base] + chars;
    }
  }

  function Narrow(t: Trie): (r: Trie)
    requires t.Node? && t.layout.Dense? && t.layout.min + |t.kids| <= 256
    ensures r.Node?
  {
    Node(0, t.prefix, Sparse(CharsOf(t.kids, t.layout.min)), KidsOf(t.kids))
  }

  lemma NarrowNext(t: Trie, d: byte)
    requires t.Node? && t.layout.Dense? && t.layout.min <= t.layout.max
    requires |t.kids| == t.layout.max - t.layout.min + 1
    ensures Next(Narrow(t), d) == Next(t, d)
  {
    Gathered(t.kids, t.layout.min, d);
  }

  lemma NarrowLayout(t: Trie)
    requires t.Node? && t.layout.Dense? && t.layout.min + |t.kids| <= 256 && NonNil(t.kids) == SPARSE_MAX
    ensures LayoutOk(Narrow(t).layout, Narrow(t).kids) && Narrow(t).kids != []
  {
    CharsFrom(t.kids, t.layout.min);
  }

  lemma NarrowedDense(t: Trie, c: byte)
    requires Emptied(t, c) && t.layout.nbr == SPARSE_MAX + 1
    ensures SameChildren(PruneDense(t, c), t, 0)
  {
    assert PruneDense(t, c) == Done(1, Narrow(t));
    NarrowLayout(t);
    forall d: byte ensures Next(Narrow(t), d) == Next(t, d) { NarrowNext(t, d); }
  }

  /** A dense node keeps its children and, unless it becomes sparse, its own count. */
  lemma PrunedDense(t: Trie, c: byte)
    requires Emptied(t, c)
    ensures SameChildren(PruneDense(t, c), t, if t.layout.nbr == SPARSE_MAX + 1 then 0 else t.refcount)
  {
    if t.layout.nbr == SPARSE_MAX + 1 {
      NarrowedDense(t, c);
    } else if c == t.layout.min {
      TrimmedLeft(t, c);
    } else if c == t.layout.max {
      TrimmedRight(t, c);
    }
  }

  // ---------------------------------------------------------------------------- the theorem

  /** Every held string that starts with `w` is `s`. */
  ghost predicate OnlyHeldFrom(t: Trie, w: seq<byte>, s: seq<byte>) {
    forall y :: w <= y && Count(t, y) > 0 ==> y == s
  }

  /** Every held string that goes on from `p` as `s` does is `s` itself. */
  ghost predicate OnlyHeld(t: Trie, s: seq<byte>, p: seq<byte>)
    requires ProperPrefix(p, s)
  {
    OnlyHeldFrom(t, p + [s[|p|]], s)
  }

  /**
   * The one side effect of removing `s` for good: `p` is a proper prefix of it at which held
   * strings branch into exactly nine characters, and `s` alone accounts for one of them.
   */
  ghost predicate LosesOnUnsubscribe(t: Trie, s: seq<byte>, p: seq<byte>) {
    && ProperPrefix(p, s)
    && Count(t, s) == 1
    && |Branching(t, p)| == SPARSE_MAX + 1
    && OnlyHeld(t, s, p)
  }

  /** The table after removing a held string, from the table before. */
  ghost function AfterUnsubscribe(t: Trie, s: seq<byte>, x: seq<byte>): int {
    if x == s then Count(t, x) - 1
    else if LosesOnUnsubscribe(t, s, x) then 0
    else Count(t, x)
  }

  ghost predicate Removed(t: Trie, data: seq<byte>, r: Outcome) {
    && r.Done?
    && WellFormed(r.trie)
    && r.rc == (if Count(t, data) == 1 then 1 else 0)
    && forall x :: Count(r.trie, x) == AfterUnsubscribe(t, data, x)
  }

  /** `tail` is all the child holds. */
  ghost predicate HoldsOnly(k: Trie, tail: seq<byte>) {
    && Count(k, tail) == 1
    && OnlyHeldFrom(k, [], tail)
  }

  lemma SameTail(p: seq<byte>, a: seq<byte>, b: seq<byte>)
    requires p + a == p + b
    ensures a == b
  {
    assert a == (p + a)[|p|..] && b == (p + b)[|p|..];
  }

  lemma OnlyHeldFromChild(t: Trie, c: byte, w: seq<byte>, s: seq<byte>)
    requires t.Node?
    ensures OnlyHeldFrom(t, t.prefix + [c] + w, t.prefix + [c] + s) <==> OnlyHeldFrom(Next(t, c), w, s)
  {
    var p, k := t.prefix + [c], Next(t, c);
    if OnlyHeldFrom(t, p + w, p + s) {
      forall z | w <= z && Count(k, z) > 0 ensures z == s {
        CountBelow(t, c, z);
        SamePrefix(p, w, z);
        SameTail(p, z, s);
      }
    }
    if OnlyHeldFrom(k, w, s) {
      forall y | p + w <= y && Count(t, y) > 0 ensures y == p + s {
        var z := y[|p|..];
        assert y == p + z by { assert y == y[..|p|] + z && p == (p + w)[..|p|]; }
        CountBelow(t, c, z);
        SamePrefix(p, w, z);
      }
    }
  }

  lemma LosesThroughChild(t: Trie, c: byte, tail: seq<byte>, q: seq<byte>)
    requires t.Node?
    ensures LosesOnUnsubscribe(t, t.prefix + [c] + tail, t.prefix + [c] + q) <==>
            LosesOnUnsubscribe(Next(t, c), tail, q)
  {
    var p := t.prefix + [c];
    SamePrefix(p, q, tail);
    BranchingChild(t, c, q);
    CountBelow(t, c, tail);
    if ProperPrefix(q, tail) {
      var e := [tail[|q|]];
      assert (p + tail)[|p + q|] == tail[|q|];
      assert p + q + e == p + (q + e);
      OnlyHeldFromChild(t, c, q + e, tail);
    }
  }

  lemma OnlyHeldHere(t: Trie, c: byte, tail: seq<byte>)
    requires t.Node?
    ensures ProperPrefix(t.prefix, t.prefix + [c] + tail)
    ensures OnlyHeld(t, t.prefix + [c] + tail, t.prefix) <==> OnlyHeldFrom(Next(t, c), [], tail)
  {
    var p := t.prefix + [c];
    assert p + [] == p && (p + tail)[|t.prefix|] == c;
    OnlyHeldFromChild(t, c, [], tail);
  }

  lemma LosesAtPrefix(t: Trie, c: byte, tail: seq<byte>)
    requires t.Node? && WellFormed(t)
    ensures LosesOnUnsubscribe(t, t.prefix + [c] + tail, t.prefix) <==>
              NonNil(t.kids) == SPARSE_MAX + 1 && HoldsOnly(Next(t, c), tail)
  {
    BranchingHere(t);
    CountBelow(t, c, tail);
    OnlyHeldHere(t, c, tail);
  }

  lemma LosesNothingBefore(t: Trie, s: seq<byte>, x: seq<byte>)
    requires t.Node? && ProperPrefix(t.prefix, s) && x != t.prefix
    requires !(t.prefix + [s[|t.prefix|]] <= x)
    ensures !LosesOnUnsubscribe(t, s, x)
  {
    if ProperPrefix(x, s) {
      assert |x| < |t.prefix|;
      assert x == s[..|x|] == t.prefix[..|x|];
      FewInside(t, x);
    }
  }

  /** A child disappears exactly when the removed string was all it held. */
  lemma Vanishes(k: Trie, tail: seq<byte>, r: Outcome)
    requires WellFormed(k) && Count(k, tail) > 0 && Removed(k, tail, r)
    ensures r.trie.Nil? <==> HoldsOnly(k, tail)
  {
    if HoldsOnly(k, tail) && r.trie.Node? {
      var z := SomeHeld(r.trie);
      assert false;
    }
    if r.trie.Nil? {
      assert AfterUnsubscribe(k, tail, tail) == 0;
      forall z | Count(k, z) > 0 ensures z == tail {
        assert AfterUnsubscribe(k, tail, z) == 0;
        if z != tail { LossLeavesOthers(k, tail, z, r); }
      }
    }
  }

  /** A node that loses its count has other strings below it. */
  lemma LossLeavesOthers(k: Trie, tail: seq<byte>, z: seq<byte>, r: Outcome)
    requires Removed(k, tail, r) && LosesOnUnsubscribe(k, tail, z)
    ensures r.trie.Node?
  {
    var e := tail[|z|];
    var others := Branching(k, z) - {e};
    assert |others| >= SPARSE_MAX;
    var d :| d in others;
    var y :| z + [d] <= y && Count(k, y) > 0;
    assert y[|z|] == d;
    assert AfterUnsubscribe(k, tail, y) > 0;
  }

  // ---------------------------------------------------------------------------- the walk back

  lemma FoundHeld(t: Trie)
    requires t.Node? && WellFormed(t) && t.refcount > 0
    ensures Removed(t, t.prefix, Found(t))
  {
    var r := Found(t).trie;
    CountAtPrefix(t);
    forall x ensures Count(r, x) == AfterUnsubscribe(t, t.prefix, x) {
      if ProperPrefix(x, t.prefix) { FewInside(t, x); }
      var t' := t.(refcount := t.refcount - 1);
      SameButCount(t, t', x);
      if t.refcount == 1 && t.kids != [] { CompactKeepsCounts(t', x); }
      if t.refcount == 1 && t.kids == [] { CountCases(t, x); }
    }
    if t.refcount == 1 && t.kids != [] { CompactKeepsShape(t.(refcount := 0)); }
  }

  lemma SameButCount(t: Trie, t': Trie, x: seq<byte>)
    requires t.Node? && t'.Node? && t' == t.(refcount := t'.refcount)
    ensures Count(t', x) == if x == t.prefix then t'.refcount else Count(t, x)
  {
    forall d: byte ensures Next(t', d) == Next(t, d) {}
    CountCases(t, x);
    CountCases(t', x);
    if x == t.prefix { CountAtPrefix(t'); }
  }

  /** `r` is `t` with the child for `c` replaced, and with its own count kept unless `lost`. */
  ghost predicate Rebuilt(t: Trie, r: Trie, c: byte, k: Trie, lost: bool)
    requires t.Node?
  {
    && r.Node?
    && r.prefix == t.prefix
    && r.refcount == (if lost then 0 else t.refcount)
    && forall d :: Next(r, d) == if d == c then k else Next(t, d)
  }

  /** The node the walk returns to, given what became of its child. */
  lemma RebuiltCount(t: Trie, data: seq<byte>, sub: Outcome, r: Trie, lost: bool)
    requires t.Node? && WellFormed(t) && ProperPrefix(t.prefix, data)
    requires var k, tail := Next(t, data[|t.prefix|]), data[|t.prefix| + 1..];
             && Count(k, tail) > 0
             && Removed(k, tail, sub)
             && Rebuilt(t, r, data[|t.prefix|], sub.trie, lost)
             && (lost <==> NonNil(t.kids) == SPARSE_MAX + 1 && HoldsOnly(k, tail))
    ensures forall x :: Count(r, x) == AfterUnsubscribe(t, data, x)
  {
    var n := |t.prefix|;
    var c, tail := data[n], data[n + 1..];
    var p, k := t.prefix + [c], Next(t, c);
    CutAt(t.prefix, data);
    forall x ensures Count(r, x) == AfterUnsubscribe(t, data, x) {
      CountWithKid(t, r, c, sub.trie, x);
      if p <= x {
        var y := x[n + 1..];
        assert x == p + y;
        CountBelow(t, c, y);
        LosesThroughChild(t, c, tail, y);
        assert Count(sub.trie, y) == AfterUnsubscribe(k, tail, y);
      } else {
        if x == t.prefix {
          CountAtPrefix(t);
          LosesAtPrefix(t, c, tail);
        } else {
          LosesNothingBefore(t, data, x);
        }
      }
    }
  }

  lemma KeptChild(t: Trie, c: byte, k: Trie)
    requires t.Node? && WellFormed(t) && Next(t, c).Node? && k.Node? && WellFormed(k)
    ensures var r := t.(kids := t.kids[Slot(t.layout, c) := k]);
            WellFormed(r) && Rebuilt(t, r, c, k, false)
  {
    ReplacedKidShape(t, Slot(t.layout, c), k);
    ReplacedKid(t, c, k);
  }

  ghost function WithoutChild(t: Trie, i: nat): (r: Trie)
    requires t.Node? && t.layout.Sparse? && i < |t.kids| == |t.layout.chars|
    ensures r.Node?
  {
    t.(layout := Sparse(t.layout.chars[..i] + t.layout.chars[i + 1..]), kids := t.kids[..i] + t.kids[i + 1..])
  }

  lemma RemovedShape(t: Trie, c: byte)
    requires t.Node? && t.layout.Sparse? && WellFormed(t) && Next(t, c).Node?
    ensures var r := WithoutChild(t, Slot(t.layout, c));
            && Rebuilt(t, r, c, Nil, false)
            && LayoutOk(r.layout, r.kids)
            && (r.kids != [] || r.refcount != 0 ==> WellFormed(r))
  {
    var r := WithoutChild(t, Slot(t.layout, c));
    RemovedFromSparse(t, Slot(t.layout, c));
    forall d ensures WellFormed(Next(r, d)) { NextWellFormed(t, d); }
    KidsByNext(r);
  }

  /** A sparse node after its child has gone: deleted or merged, its table is the same. */
  lemma PrunedSparse(t: Trie, c: byte)
    requires t.Node? && t.layout.Sparse? && WellFormed(t) && Next(t, c).Node?
    ensures var i := Slot(t.layout, c);
            var out, r := Unsubscribed(t, i), WithoutChild(t, i);
            && out.rc == 1
            && Rebuilt(t, r, c, Nil, false)
            && WellFormed(out.trie)
            && forall x :: Count(out.trie, x) == Count(r, x)
  {
    var r := WithoutChild(t, Slot(t.layout, c));
    RemovedShape(t, c);
    if r.kids == [] && r.refcount == 0 {
      forall x ensures Count(r, x) == 0 { CountCases(r, x); }
    } else {
      CompactKeepsShape(r);
      forall x ensures Count(Compact(r), x) == Count(r, x) { CompactKeepsCounts(r, x); }
    }
  }

  /** The sparse case of the walk back, as the code runs it. */
  ghost function Unsubscribed(t: Trie, i: nat): (out: Outcome)
    requires t.Node? && t.layout.Sparse? && LayoutOk(t.layout, t.kids) && i < |t.kids|
    ensures out.Done?
    ensures out == (var r := WithoutChild(t, i);
                    if r.kids == [] && r.refcount == 0 then Done(1, Nil) else Done(1, Compact(r)))
  {
    RemovedFromSparse(t, i);
    assert t.kids[i := Nil][..i] == t.kids[..i] && t.kids[i := Nil][i + 1..] == t.kids[i + 1..];
    PruneSparse(t.(kids := t.kids[i := Nil]), i)
  }

  lemma DenseEmptied(t: Trie, c: byte)
    requires t.Node? && t.layout.Dense? && LayoutOk(t.layout, t.kids) && Next(t, c).Node?
    ensures var t' := t.(kids := t.kids[Slot(t.layout, c) := Nil]);
            Emptied(t', c) && t'.layout.nbr == t.layout.nbr == NonNil(t.kids)
  {
    NonNilUpdate(t.kids, Slot(t.layout, c), Nil);
  }

  /** A dense node after its child has gone: only the conversion to sparse drops its own count. */
  lemma PrunedFromDense(t: Trie, c: byte)
    requires t.Node? && t.layout.Dense? && WellFormed(t) && Next(t, c).Node?
    ensures var r := PruneDense(t.(kids := t.kids[Slot(t.layout, c) := Nil]), c);
            && r.Done? && r.rc == 1
            && Rebuilt(t, r.trie, c, Nil, NonNil(t.kids) == SPARSE_MAX + 1)
            && WellFormed(r.trie)
  {
    var t' := t.(kids := t.kids[Slot(t.layout, c) := Nil]);
    DenseEmptied(t, c);
    PrunedDense(t', c);
    ReplacedKid(t, c, Nil);
    PrunedKids(t, PruneDense(t', c).trie);
  }

  /** Children that another well-formed node reaches, or none, are well formed. */
  lemma PrunedKids(t: Trie, r: Trie)
    requires t.Node? && WellFormed(t) && r.Node? && LayoutOk(r.layout, r.kids)
    requires forall d :: Next(r, d) == Next(t, d) || Next(r, d).Nil?
    ensures AllWellFormed(r.kids)
  {
    forall d ensures WellFormed(Next(r, d)) { NextWellFormed(t, d); }
    KidsByNext(r);
  }

  /**
   * Removing a held string never crashes, keeps the shape, changes the table exactly as
   * AfterUnsubscribe says, and returns 1 exactly when no reference is left.
   */
  lemma {:induction false} UnsubscribeHeld(t: Trie, data: seq<byte>)
    requires WellFormed(t) && Count(t, data) > 0
    ensures Removed(t, data, Unsubscribe(t, data))
    decreases |data|
  {
    CountCases(t, data);
    if data == t.prefix {
      CountAtPrefix(t);
      FoundHeld(t);
    } else {
      UnsubscribeDeeper(t, data);
    }
  }

  lemma {:induction false} UnsubscribeDeeper(t: Trie, data: seq<byte>)
    requires WellFormed(t) && Count(t, data) > 0 && data != t.prefix
    ensures Removed(t, data, Unsubscribe(t, data))
    decreases |data|, 0
  {
    var n := |t.prefix|;
    var c, tail := data[n], data[n + 1..];
    CutAt(t.prefix, data);
    assert data[n..][0] == c && data[n..][1..] == tail;
    CountBelow(t, c, tail);
    var k := Next(t, c);
    NextWellFormed(t, c);
    UnsubscribeHeld(k, tail);
    var sub, out := Unsubscribe(k, tail), Unsubscribe(t, data);
    Vanishes(k, tail, sub);
    if sub.trie.Node? {
      KeptChild(t, c, sub.trie);
      RebuiltCount(t, data, sub, out.trie, false);
    } else if t.layout.Sparse? {
      PrunedSparse(t, c);
      RebuiltCount(t, data, sub, WithoutChild(t, Slot(t.layout, c)), false);
    } else {
      PrunedFromDense(t, c);
      RebuiltCount(t, data, sub, out.trie, NonNil(t.kids) == SPARSE_MAX + 1);
    }
  }

  // ------------------------------------------------------------------- strings that are not held

  /**
   * The walk for `data` goes astray: it runs out of data at a subscribed node with a prefix still
   * to match, or it steps to a NULL node.
   */
  ghost predicate GoesAstray(t: Trie, data: seq<byte>)
    requires WellFormed(t)
    decreases |data|
  {
    if data == [] then t.Node? && t.prefix != [] && t.refcount > 0
    else if t.Nil? then true
    else if !(t.prefix <= data) || |data| == |t.prefix| then false
    else
      var i := Slot(t.layout, data[|t.prefix|]);
      assert AllWellFormed(t.kids);
      i != -1 && (t.kids[i].Nil? || GoesAstray(t.kids[i], data[|t.prefix| + 1..]))
  }

  /** A call that removes a child, or that goes on as if it had, leaves another node behind. */
  lemma PruningChanges(t: Trie, c: byte)
    requires t.Node? && WellFormed(t) && 0 <= Slot(t.layout, c) < |t.kids|
    ensures var i := Slot(t.layout, c);
            var t' := t.(kids := t.kids[i := Nil]);
            && (t.layout.Sparse? ==>
                  && LayoutOk(Sparse(t'.layout.chars[..i] + t'.layout.chars[i + 1..]), t'.kids[..i] + t'.kids[i + 1..])
                  && PruneSparse(t', i).trie != t)
            && (t.layout.Dense? ==> PruneDense(t', c).Crash? || PruneDense(t', c).trie != t)
  {
    if t.layout.Sparse? {
      var i := Slot(t.layout, c);
      assert t.kids[i := Nil][..i] == t.kids[..i] && t.kids[i := Nil][i + 1..] == t.kids[i + 1..];
      RemovedFromSparse(t, i);
    }
  }

  /**
   * For a string that is not held, a call leaves the trie as it was exactly when the walk does not
   * go astray.
   */
  lemma {:induction false} UnsubscribeAbsent(t: Trie, data: seq<byte>)
    requires WellFormed(t) && Count(t, data) == 0
    ensures (Unsubscribe(t, data).Done? && Unsubscribe(t, data).trie == t) <==> !GoesAstray(t, data)
    decreases |data|
  {
    if data != [] && t.Node? {
      CheckPrefixMeans(t.prefix, data);
      if t.prefix <= data && |data| > |t.prefix| {
        UnsubscribeAbsentDeeper(t, data);
      } else if t.prefix <= data {
        assert data == t.prefix;
        CountAtPrefix(t);
      }
    } else if t.Node? && t.prefix == [] {
      CountAtPrefix(t);
    }
  }

  lemma {:induction false} UnsubscribeAbsentDeeper(t: Trie, data: seq<byte>)
    requires t.Node? && WellFormed(t) && ProperPrefix(t.prefix, data) && Count(t, data) == 0
    ensures (Unsubscribe(t, data).Done? && Unsubscribe(t, data).trie == t) <==> !GoesAstray(t, data)
    decreases |data|, 0
  {
    var n := |t.prefix|;
    var c, tail := data[n], data[n + 1..];
    CutAt(t.prefix, data);
    CheckPrefixMeans(t.prefix, data);
    assert data[n..][0] == c && data[n..][1..] == tail;
    var i := Slot(t.layout, c);
    if i != -1 {
      CountBelow(t, c, tail);
      UnsubscribeAbsent(t.kids[i], tail);
      var sub := Unsubscribe(t.kids[i], tail);
      if sub.Done? && sub.trie.Nil? { PruningChanges(t, c); }
      if sub.Done? && sub.trie != t.kids[i] { assert t.kids[i := sub.trie][i] != t.kids[i]; }
      if sub.Done? && sub.trie == t.kids[i] { assert t.kids[i := sub.trie] == t.kids; }
    }
  }

  /** With only "ABC" subscribed, unsubscribing the empty string removes "ABC". */
  lemma EmptyStringRemovesAnother()
    ensures var t := Chain([65, 66, 67]);
            && WellFormed(t) && Count(t, []) == 0 && Count(t, [65, 66, 67]) == 1
            && Unsubscribe(t, []) == Done(1, Nil)
  {
    ChainIsOneString([65, 66, 67]);
  }
}
