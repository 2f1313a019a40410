/**
 * References to message data: up to 31 bytes are kept in the reference itself, more in a chunk with a count
 * of the references to it. A message is made of three of them.
 */
module ChunkRef {
  import opened Bytes
  import C = Chunk

  const INLINE_MAX := 32

  datatype Ref = Inline(data: seq<byte>) | Shared(id: nat, at: nat)

  /** The chunks in use, and the next one's name. */
  datatype Heap = Heap(cells: map<nat, C.Cell>, next: nat)

  datatype Message = Message(sphdr: Ref, hdrs: Ref, body: Ref)

  // ------------------------------------------------------------------------------- references

  /** nn_chunkref_init, with the data. */
  function Init(h: Heap, data: seq<byte>): (Heap, Ref) {
    if |data| < INLINE_MAX then (h, Inline(data))
    else (Heap(h.cells[h.next := C.Alloc(data)], h.next + 1), Shared(h.next, C.START))
  }

  /** nn_chunkref_term, with nn_chunk_free. */
  function Term(h: Heap, r: Ref): Heap {
    if r.Inline? || r.id !in h.cells then h
    else if h.cells[r.id].refcount <= 1 then h.(cells := h.cells - {r.id})
    else h.(cells := h.cells[r.id := h.cells[r.id].(refcount := h.cells[r.id].refcount - 1)])
  }

  /** nn_chunk_addref on the chunk of a reference, if it has one. */
  function AddRef(h: Heap, r: Ref, n: nat): Heap {
    if r.Inline? || r.id !in h.cells then h
    else h.(cells := h.cells[r.id := h.cells[r.id].(refcount := h.cells[r.id].refcount + n)])
  }

  predicate CanTrim(h: Heap, r: Ref, n: nat) {
    match r
    case Inline(data) => n <= |data|
    case Shared(id, at) => id in h.cells && C.CanTrim(h.cells[id], at, n)
  }

  /** nn_chunkref_trim. */
  function Trim(h: Heap, r: Ref, n: nat): (Heap, Ref)
    requires CanTrim(h, r, n)
  {
    match r
    case Inline(data) => (h, Inline(data[n..]))
    case Shared(id, at) => (h.(cells := h.cells[id := C.Trim(h.cells[id], at, n)]), Shared(id, at + n))
  }

  /** A reference that reaches its data. */
  predicate Good(h: Heap, r: Ref) {
    match r
    case Inline(data) => |data| < INLINE_MAX
    case Shared(id, at) => id in h.cells && C.Intact(h.cells[id], at)
  }

  /** nn_chunkref_data and nn_chunkref_size. */
  function Data(h: Heap, r: Ref): seq<byte>
    requires Good(h, r)
  {
    match r
    case Inline(data) => data
    case Shared(id, at) => C.Data(h.cells[id], at)
  }

  // --------------------------------------------------------------------------- who holds what

  /** The chunks that a reference holds. */
  function Ids(r: Ref): multiset<nat> {
    match r
    case Inline(_) => multiset{}
    case Shared(id, _) => multiset{id}
  }

  /** `held` counts the references to each chunk: a chunk exists while it has one, and knows how many it has. */
  ghost predicate Balanced(h: Heap, held: multiset<nat>) {
    && (forall id :: id in h.cells <==> id in held)
    && (forall id :: id in h.cells ==> h.cells[id].refcount == held[id])
    && (forall id :: id in h.cells ==> id < h.next)
  }

  /** The chunks that are left have the data they had. */
  ghost predicate SameData(h: Heap, r: Heap) {
    && r.next == h.next
    && forall id :: id in r.cells ==>
         id in h.cells && r.cells[id].size == h.cells[id].size && r.cells[id].mem == h.cells[id].mem
  }

  function Times(n: nat, m: multiset<nat>): multiset<nat> {
    if n == 0 then multiset{} else m + Times(n - 1, m)
  }

  lemma {:induction false} TimesOne(n: nat, id: nat)
    ensures Times(n, multiset{id}) == multiset{}[id := n]
  {
    if n > 0 { TimesOne(n - 1, id); }
  }

  lemma {:induction false} TimesNone(n: nat)
    ensures Times(n, multiset{}) == multiset{}
  {
    if n > 0 { TimesNone(n - 1); }
  }

  lemma {:induction false} TimesSum(n: nat, a: multiset<nat>, b: multiset<nat>)
    ensures Times(n, a + b) == Times(n, a) + Times(n, b)
  {
    if n > 0 { TimesSum(n - 1, a, b); }
  }

  lemma InitBalanced(h: Heap, held: multiset<nat>, data: seq<byte>)
    requires Balanced(h, held)
    ensures var (k, r) := Init(h, data);
            Balanced(k, held + Ids(r)) && Good(k, r) && Data(k, r) == data && (r.Inline? <==> |data| < 32)
  {
    if |data| >= INLINE_MAX { C.AllocIntact(data); }
  }

  /** A chunk is freed when its last reference is given up, and not before. */
  lemma TermBalanced(h: Heap, held: multiset<nat>, r: Ref)
    requires Balanced(h, held) && Ids(r) <= held
    ensures Balanced(Term(h, r), held - Ids(r)) && SameData(h, Term(h, r))
  {
    if r.Shared? { assert r.id in Ids(r) && r.id in held; }
  }

  lemma AddRefBalanced(h: Heap, held: multiset<nat>, r: Ref, n: nat)
    requires Balanced(h, held) && Ids(r) <= held
    ensures Balanced(AddRef(h, r, n), held + Times(n, Ids(r))) && SameData(h, AddRef(h, r, n))
  {
    if r.Shared? {
      assert r.id in Ids(r) && r.id in held;
      TimesOne(n, r.id);
    } else {
      TimesNone(n);
    }
  }

  /** nn_chunkref_cp followed by giving the copy up changes nothing. */
  lemma CopyAndTerm(h: Heap, held: multiset<nat>, r: Ref)
    requires Balanced(h, held) && Ids(r) <= held
    ensures Term(AddRef(h, r, 1), r) == h
  {
    if r.Shared? {
      assert r.id in Ids(r) && r.id in held;
      assert h.cells[r.id := h.cells[r.id]] == h.cells;
    }
  }

  /** Trimming takes bytes off the front; nobody else notices unless the chunk is shared. */
  lemma TrimTakes(h: Heap, held: multiset<nat>, r: Ref, n: nat)
    requires Balanced(h, held) && Good(h, r) && CanTrim(h, r, n)
    ensures var (k, t) := Trim(h, r, n);
            && Balanced(k, held) && Ids(t) == Ids(r)
            && Good(k, t) && Data(k, t) == Data(h, r)[n..]
            && forall q :: Good(h, q) && (q.Inline? || r.Inline? || q.id != r.id) ==>
                 Good(k, q) && Data(k, q) == Data(h, q)
  {
    if r.Shared? { C.TrimIntact(h.cells[r.id], r.at, n); }
  }

  /** A copy made before the trim keeps its data exactly when they are inline or nothing is trimmed. */
  lemma TrimAndCopies(h: Heap, r: Ref, n: nat)
    requires Good(h, r) && CanTrim(h, r, n)
    ensures var k := Trim(h, r, n).0;
            (Good(k, r) && Data(k, r) == Data(h, r)) <==> (r.Inline? || n == 0)
  {
    if r.Shared? { C.TrimShared(h.cells[r.id], r.at, n); }
  }

  // ---------------------------------------------------------------------------------- messages

  function MsgIds(m: Message): multiset<nat> { Ids(m.sphdr) + Ids(m.hdrs) + Ids(m.body) }

  /** nn_msg_term. */
  function MsgTerm(h: Heap, m: Message): Heap { Term(Term(Term(h, m.sphdr), m.hdrs), m.body) }

  /** nn_msg_cp with n = 1, and nn_msg_bulkcopy_start; the copies themselves are equal to the original. */
  function MsgAddRef(h: Heap, m: Message, n: nat): Heap {
    AddRef(AddRef(AddRef(h, m.sphdr, n), m.hdrs, n), m.body, n)
  }

  lemma MsgTermBalanced(h: Heap, held: multiset<nat>, m: Message)
    requires Balanced(h, held) && MsgIds(m) <= held
    ensures Balanced(MsgTerm(h, m), held - MsgIds(m)) && SameData(h, MsgTerm(h, m))
  {
    TermBalanced(h, held, m.sphdr);
    var a, heldA := Term(h, m.sphdr), held - Ids(m.sphdr);
    TermBalanced(a, heldA, m.hdrs);
    TermBalanced(Term(a, m.hdrs), heldA - Ids(m.hdrs), m.body);
    assert heldA - Ids(m.hdrs) - Ids(m.body) == held - MsgIds(m);
  }

  lemma Regroup(held: multiset<nat>, a: multiset<nat>, b: multiset<nat>, c: multiset<nat>)
    ensures held + a + b + c == held + (a + b + c)
  {
  }

  lemma TimesMsg(n: nat, m: Message)
    ensures Times(n, MsgIds(m)) == Times(n, Ids(m.sphdr)) + Times(n, Ids(m.hdrs)) + Times(n, Ids(m.body))
  {
    TimesSum(n, Ids(m.sphdr), Ids(m.hdrs));
    TimesSum(n, Ids(m.sphdr) + Ids(m.hdrs), Ids(m.body));
  }

  lemma MsgAddRefBalanced(h: Heap, held: multiset<nat>, m: Message, n: nat)
    requires Balanced(h, held) && MsgIds(m) <= held
    ensures Balanced(MsgAddRef(h, m, n), held + Times(n, MsgIds(m))) && SameData(h, MsgAddRef(h, m, n))
  {
    AddRefBalanced(h, held, m.sphdr, n);
    var a, heldA := AddRef(h, m.sphdr, n), held + Times(n, Ids(m.sphdr));
    AddRefBalanced(a, heldA, m.hdrs, n);
    AddRefBalanced(AddRef(a, m.hdrs, n), heldA + Times(n, Ids(m.hdrs)), m.body, n);
    TimesMsg(n, m);
    Regroup(held, Times(n, Ids(m.sphdr)), Times(n, Ids(m.hdrs)), Times(n, Ids(m.body)));
  }

  // ----------------------------------------------------------------------------- in place

  /** The chunks, changed through the references to them. `held` counts the references in use before a call. */
  class Store {
    var heap: Heap

    constructor ()
      ensures Balanced(heap, multiset{})
    {
      heap := Heap(map[], 0);
    }

    method InitRef(data: seq<byte>, ghost held: multiset<nat>) returns (r: Ref)
      requires Balanced(heap, held)
      modifies this
      ensures Balanced(heap, held + Ids(r)) && Good(heap, r) && Data(heap, r) == data
      ensures r.Inline? <==> |data| < INLINE_MAX
    {
      InitBalanced(heap, held, data);
      if |data| < INLINE_MAX { return Inline(data); }
      r := Shared(heap.next, C.START);
      heap := Heap(heap.cells[heap.next := C.Alloc(data)], heap.next + 1);
    }

    method TermRef(r: Ref, ghost held: multiset<nat>)
      requires Balanced(heap, held) && Ids(r) <= held
      modifies this
      ensures heap == Term(old(heap), r) && Balanced(heap, held - Ids(r)) && SameData(old(heap), heap)
    {
      TermBalanced(heap, held, r);
      if r.Shared? {
        assert r.id in Ids(r) && r.id in held;
        var cell := heap.cells[r.id];
        if cell.refcount <= 1 {
          heap := heap.(cells := heap.cells - {r.id});
        } else {
          heap := heap.(cells := heap.cells[r.id := cell.(refcount := cell.refcount - 1)]);
        }
      }
    }

    method AddRefs(r: Ref, n: nat, ghost held: multiset<nat>)
      requires Balanced(heap, held) && Ids(r) <= held
      modifies this
      ensures heap == AddRef(old(heap), r, n) && Balanced(heap, held + Times(n, Ids(r))) && SameData(old(heap), heap)
    {
      AddRefBalanced(heap, held, r, n);
      if r.Shared? {
        assert r.id in Ids(r) && r.id in held;
        var cell := heap.cells[r.id];
        heap := heap.(cells := heap.cells[r.id := cell.(refcount := cell.refcount + n)]);
      }
    }

    /** nn_chunkref_trim: the same chunk, its data without the first `n` bytes. */
    method TrimRef(r: Ref, n: nat, ghost held: multiset<nat>) returns (t: Ref)
      requires Balanced(heap, held) && Good(heap, r) && CanTrim(heap, r, n)
      modifies this
      ensures (heap, t) == Trim(old(heap), r, n) && Balanced(heap, held) && Ids(t) == Ids(r)
      ensures Good(heap, t) && Data(heap, t) == old(Data(heap, r))[n..]
    {
      TrimTakes(heap, held, r, n);
      match r {
        case Inline(data) => t := Inline(data[n..]);
        case Shared(id, at) =>
          heap := heap.(cells := heap.cells[id := C.Trim(heap.cells[id], at, n)]);
          t := Shared(id, at + n);
      }
    }
  }

  /** A message in place; a moved or terminated one is no longer initialised. */
  class Msg {
    var sphdr: Ref
    var hdrs: Ref
    var body: Ref
    ghost var initialised: bool

    ghost function Value(): Message
      reads this
    {
      Message(sphdr, hdrs, body)
    }

    constructor ()
      ensures !initialised
    {
      sphdr, hdrs, body, initialised := Inline([]), Inline([]), Inline([]), false;
    }

    /** nn_msg_init, with the data of the body. */
    method Init(store: Store, data: seq<byte>, ghost held: multiset<nat>)
      requires !initialised && Balanced(store.heap, held)
      modifies this, store
      ensures initialised && Balanced(store.heap, held + MsgIds(Value()))
      ensures sphdr == hdrs == Inline([]) && Good(store.heap, body) && Data(store.heap, body) == data
    {
      sphdr, hdrs := Inline([]), Inline([]);
      body := store.InitRef(data, held);
      initialised := true;
      assert MsgIds(Value()) == Ids(body);
    }

    /** nn_msg_term. */
    method TermMsg(store: Store, ghost held: multiset<nat>)
      requires initialised && Balanced(store.heap, held) && MsgIds(Value()) <= held
      modifies this, store
      ensures !initialised && store.heap == MsgTerm(old(store.heap), old(Value()))
      ensures Balanced(store.heap, held - MsgIds(old(Value()))) && SameData(old(store.heap), store.heap)
    {
      MsgTermBalanced(store.heap, held, Value());
      store.TermRef(sphdr, held);
      store.TermRef(hdrs, held - Ids(sphdr));
      store.TermRef(body, held - Ids(sphdr) - Ids(hdrs));
      initialised := false;
    }

    /** nn_msg_mv: the references change hands, and no count changes. */
    method MoveFrom(src: Msg)
      requires src != this && src.initialised && !initialised
      modifies this, src`initialised
      ensures initialised && !src.initialised && Value() == old(src.Value())
    {
      sphdr, hdrs, body := src.sphdr, src.hdrs, src.body;
      initialised, src.initialised := true, false;
    }

    /** nn_msg_cp: a second message with the same data. */
    method CopyFrom(src: Msg, store: Store, ghost held: multiset<nat>)
      requires src != this && src.initialised && !initialised
      requires Balanced(store.heap, held) && MsgIds(src.Value()) <= held
      modifies this, store
      ensures initialised && src.initialised && Value() == src.Value() == old(src.Value())
      ensures Balanced(store.heap, held + MsgIds(Value())) && SameData(old(store.heap), store.heap)
    {
      src.BulkStart(store, 1, held);
      assert Times(1, MsgIds(src.Value())) == MsgIds(src.Value()) + Times(0, MsgIds(src.Value()));
      BulkCopyFrom(src);
    }

    /** nn_msg_bulkcopy_start: the references of all copies are counted at once. */
    method BulkStart(store: Store, copies: nat, ghost held: multiset<nat>)
      requires initialised && Balanced(store.heap, held) && MsgIds(Value()) <= held
      modifies store
      ensures store.heap == MsgAddRef(old(store.heap), Value(), copies)
      ensures Balanced(store.heap, held + Times(copies, MsgIds(Value()))) && SameData(old(store.heap), store.heap)
    {
      MsgAddRefBalanced(store.heap, held, Value(), copies);
      store.AddRefs(sphdr, copies, held);
      store.AddRefs(hdrs, copies, held + Times(copies, Ids(sphdr)));
      store.AddRefs(body, copies, held + Times(copies, Ids(sphdr)) + Times(copies, Ids(hdrs)));
    }

    /** nn_msg_bulkcopy_cp: the bits only. */
    method BulkCopyFrom(src: Msg)
      requires src != this && src.initialised && !initialised
      modifies this
      ensures initialised && Value() == src.Value() == old(src.Value())
    {
      sphdr, hdrs, body := src.sphdr, src.hdrs, src.body;
      initialised := true;
    }
  }
}
