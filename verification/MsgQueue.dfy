/**
 * The in-process message queue: a chain of chunks with a fixed number of slots, written at one end and read
 * at the other, and one spare chunk that is used again.
 */
module MsgQueue {
  import opened Bytes
  import opened Wrappers

  datatype Message = Message(sphdr: seq<byte>, body: seq<byte>) {
    function Size(): nat { |sphdr| + |body| }
  }

  function Total(ms: seq<Message>): nat {
    if ms == [] then 0 else ms[0].Size() + Total(ms[1..])
  }

  lemma {:induction false} TotalAppend(ms: seq<Message>, m: Message)
    ensures Total(ms + [m]) == Total(ms) + m.Size()
    decreases |ms|
  {
    if ms == [] {
      assert [m][1..] == [];
    } else {
      assert (ms + [m])[1..] == ms[1..] + [m];
      TotalAppend(ms[1..], m);
    }
  }

  /** The memory of messages is that of their headers and bodies. */
  lemma {:induction false} TotalConcat(a: seq<Message>, b: seq<Message>, m: Message)
    ensures Total([m]) == |m.sphdr| + |m.body| && Total(a + b) == Total(a) + Total(b)
    decreases |a|
  {
    assert [m][1..] == [];
    if a == [] {
      assert a + b == b;
    } else {
      assert (a + b)[1..] == a[1..] + b;
      TotalConcat(a[1..], b, m);
    }
  }

  // --------------------------------------------------------------- what a chain of chunks holds

  /** The slots of a chain, from slot `first` of the first chunk up to slot `last` of the last one. */
  function Held(pages: seq<seq<Message>>, first: nat, last: nat): seq<Message>
    requires Fits(pages, first, last)
    decreases |pages|
  {
    if |pages| == 1 then pages[0][first..last] else pages[0][first..] + Held(pages[1..], 0, last)
  }

  ghost predicate Fits(pages: seq<seq<Message>>, first: nat, last: nat) {
    && pages != []
    && first <= |pages[0]| && last <= |pages[|pages| - 1]|
    && (|pages| == 1 ==> first <= last)
  }

  function Write(pages: seq<seq<Message>>, at: nat, m: Message): seq<seq<Message>>
    requires pages != [] && at < |pages[|pages| - 1]|
  {
    pages[|pages| - 1 := pages[|pages| - 1][at := m]]
  }

  lemma WriteTail(pages: seq<seq<Message>>, at: nat, m: Message)
    requires |pages| > 1 && at < |pages[|pages| - 1]|
    ensures Write(pages, at, m)[1..] == Write(pages[1..], at, m) && Write(pages, at, m)[0] == pages[0]
  {
  }

  /** Writing into the slot after the last one held. */
  lemma {:induction false} HeldWrite(pages: seq<seq<Message>>, first: nat, last: nat, m: Message)
    requires Fits(pages, first, last) && last < |pages[|pages| - 1]|
    ensures Fits(Write(pages, last, m), first, last + 1)
    ensures Held(Write(pages, last, m), first, last + 1) == Held(pages, first, last) + [m]
    decreases |pages|
  {
    if |pages| > 1 {
      WriteTail(pages, last, m);
      HeldWrite(pages[1..], 0, last, m);
    }
  }

  /** A fresh chunk after a full one. */
  lemma {:induction false} HeldGrow(pages: seq<seq<Message>>, first: nat, page: seq<Message>)
    requires pages != [] && Fits(pages, first, |pages[|pages| - 1]|)
    ensures Fits(pages + [page], first, 0)
    ensures Held(pages + [page], first, 0) == Held(pages, first, |pages[|pages| - 1]|)
    decreases |pages|
  {
    assert (pages + [page])[1..] == pages[1..] + [page];
    if |pages| > 1 {
      HeldGrow(pages[1..], 0, page);
    }
  }

  /** Reading the first slot held. */
  lemma HeldRead(pages: seq<seq<Message>>, first: nat, last: nat)
    requires Fits(pages, first, last) && first < |pages[0]| && Held(pages, first, last) != []
    ensures Held(pages, first, last)[0] == pages[0][first]
    ensures Fits(pages, first + 1, last)
    ensures Held(pages, first + 1, last) == Held(pages, first, last)[1..]
  {
  }

  /** The first chunk has been read to its end. */
  lemma HeldShrink(pages: seq<seq<Message>>, last: nat)
    requires |pages| > 1 && Fits(pages, |pages[0]|, last)
    ensures Fits(pages[1..], 0, last)
    ensures Held(pages[1..], 0, last) == Held(pages, |pages[0]|, last)
  {
  }

  /** Nothing is held exactly when there is one chunk and its two positions are equal. */
  lemma HeldEmpty(pages: seq<seq<Message>>, first: nat, last: nat)
    requires Fits(pages, first, last) && first < |pages[0]|
    ensures Held(pages, first, last) == [] <==> |pages| == 1 && first == last
  {
  }

  /** A chain of chunks of `g` slots that holds `ms`, each position at most at the end of its chunk. */
  ghost predicate Holding(pages: seq<seq<Message>>, g: nat, first: nat, last: nat, ms: seq<Message>) {
    && (forall i :: 0 <= i < |pages| ==> |pages[i]| == g)
    && Fits(pages, first, last)
    && ms == Held(pages, first, last)
  }

  lemma Put(pages: seq<seq<Message>>, g: nat, first: nat, last: nat, ms: seq<Message>, m: Message)
    requires Holding(pages, g, first, last, ms) && last < g
    ensures Holding(Write(pages, last, m), g, first, last + 1, ms + [m])
  {
    HeldWrite(pages, first, last, m);
  }

  lemma Grow(pages: seq<seq<Message>>, g: nat, first: nat, ms: seq<Message>, page: seq<Message>)
    requires Holding(pages, g, first, g, ms) && |page| == g
    ensures Holding(pages + [page], g, first, 0, ms)
  {
    HeldGrow(pages, first, page);
  }

  lemma Take(pages: seq<seq<Message>>, g: nat, first: nat, last: nat, ms: seq<Message>)
    requires Holding(pages, g, first, last, ms) && first < g && ms != []
    ensures Holding(pages, g, first + 1, last, ms[1..]) && pages[0][first] == ms[0]
    ensures last < g && first + 1 == g ==> |pages| > 1
  {
    HeldRead(pages, first, last);
  }

  lemma Hop(pages: seq<seq<Message>>, g: nat, last: nat, ms: seq<Message>)
    requires Holding(pages, g, g, last, ms) && |pages| > 1
    ensures Holding(pages[1..], g, 0, last, ms)
  {
    HeldShrink(pages, last);
  }

  lemma Drained(pages: seq<seq<Message>>, g: nat, first: nat, last: nat)
    requires Holding(pages, g, first, last, []) && first < g
    ensures |pages| == 1 && first == last
  {
    HeldEmpty(pages, first, last);
  }

  // ------------------------------------------------------------------------------ in place

  class Chunk {
    const msgs: array<Message>
    var next: Chunk?

    constructor (granularity: nat)
      ensures fresh(msgs) && msgs.Length == granularity && next == null
    {
      msgs := new Message[granularity](_ => Message([], []));
      next := null;
    }
  }

  ghost predicate LiveAre(live: set<Chunk>, spine: seq<Chunk>, cache: Chunk?) {
    live == (set c | c in spine) + if cache == null then {} else {cache}
  }

  /** The spare chunk becomes the last one. */
  lemma LiveLinked(live: set<Chunk>, spine: seq<Chunk>, cache: Chunk)
    requires LiveAre(live, spine, cache)
    ensures LiveAre(live, spine + [cache], null)
  {
  }

  /** The first chunk becomes the spare one, or is freed when there is one. */
  lemma LiveRead(live: set<Chunk>, spine: seq<Chunk>, cache: Chunk?)
    requires LiveAre(live, spine, cache) && spine != [] && spine[0] !in spine[1..] && spine[0] != cache
    ensures spine[0] in live
    ensures if cache == null then LiveAre(live, spine[1..], spine[0]) else LiveAre(live - {spine[0]}, spine[1..], cache)
  {
    assert spine == [spine[0]] + spine[1..];
    assert forall c :: c in spine <==> c == spine[0] || c in spine[1..];
  }

  class MessageQueue {
    const granularity: nat
    const maxmem: nat
    var count: nat
    var mem: nat
    var inChunk: Chunk
    var inPos: nat
    var outChunk: Chunk
    var outPos: nat
    var cache: Chunk?
    /** The chunks from `inChunk` to `outChunk`, their slots, and every object the queue uses. */
    ghost var spine: seq<Chunk>
    ghost var pages: seq<seq<Message>>
    ghost var repr: set<object>
    /** The chunks allocated and not yet freed. */
    ghost var live: set<Chunk>
    ghost var contents: seq<Message>

    ghost predicate Mine(c: Chunk)
      reads `repr
    {
      c in repr && c.msgs in repr && c.msgs.Length == granularity
    }

    ghost predicate Stored()
      reads `repr, `spine, `pages, repr
    {
      && |spine| == |pages| > 0
      && (forall i :: 0 <= i < |spine| ==> Mine(spine[i]) && spine[i].msgs[..] == pages[i])
      && (forall i, j :: 0 <= i < j < |spine| ==> spine[i] != spine[j] && spine[i].msgs != spine[j].msgs)
      && (forall i :: 0 <= i < |spine| - 1 ==> spine[i].next == spine[i + 1])
    }

    ghost predicate Spare()
      reads `repr, `spine, `cache, repr
    {
      cache != null ==> Mine(cache) && forall i :: 0 <= i < |spine| ==> spine[i] != cache && spine[i].msgs != cache.msgs
    }

    /** The chain of chunks. The last chunk's `next` may be stale: nothing is said about it. */
    ghost predicate Chain()
      reads `repr, `spine, `pages, `cache, `inChunk, `outChunk, repr
    {
      && this !in repr
      && Stored() && Spare()
      && spine[0] == inChunk && spine[|spine| - 1] == outChunk
    }

    /** Exactly the chunks of the chain and the spare one are still to be freed. */
    ghost predicate AllLive()
      reads `live, `spine, `cache
    {
      LiveAre(live, spine, cache)
    }

    /** The chain does not depend on positions and counts. */
    twostate lemma SameChain()
      requires old(Chain())
      requires unchanged(`repr, `spine, `pages, `cache, `inChunk, `outChunk, old(repr))
      ensures Chain()
    {
    }

    /** The queue holds `contents`; two messages or more take less than the memory allowed. */
    ghost predicate Counted()
      reads `pages, `inPos, `outPos, `contents, `count, `mem
    {
      && inPos < granularity && outPos < granularity
      && Holding(pages, granularity, inPos, outPos, contents)
      && count == |contents| && mem == Total(contents)
      && (count > 1 ==> mem < maxmem)
    }

    ghost predicate Valid()
      reads this, repr
    {
      Chain() && Counted() && AllLive()
    }

    /** nn_msgqueue_init, with the number of slots in a chunk. */
    constructor (maxmem: nat, granularity: nat)
      requires granularity > 0
      ensures Valid() && contents == [] && fresh(repr) && this.maxmem == maxmem && this.granularity == granularity
    {
      this.granularity, this.maxmem, count, mem := granularity, maxmem, 0, 0;
      var chunk := new Chunk(granularity);
      inChunk, inPos, outChunk, outPos, cache := chunk, 0, chunk, 0, null;
      spine, pages, live, repr, contents := [chunk], [chunk.msgs[..]], {chunk}, {chunk, chunk.msgs}, [];
    }

    /** nn_msgqueue_empty. */
    method Empty() returns (empty: bool)
      requires Valid()
      ensures empty <==> contents == []
    {
      empty := count == 0;
    }

    method WriteSlot(m: Message)
      requires Chain() && outPos < granularity
      modifies `pages, outChunk.msgs
      ensures old(pages) != [] && |old(pages)[|old(pages)| - 1]| == granularity
      ensures Chain() && pages == Write(old(pages), outPos, m)
    {
      assert Mine(spine[|spine| - 1]);
      outChunk.msgs[outPos] := m;
      pages := Write(pages, outPos, m);
    }

    method ReadSlot() returns (m: Message)
      requires Chain() && inPos < granularity
      ensures pages != [] && |pages[0]| == granularity && m == pages[0][inPos]
    {
      assert Mine(spine[0]);
      m := inChunk.msgs[inPos];
    }

    /** The write position has reached the end of its chunk: go on in the spare chunk, or in a new one. */
    method NextWrite()
      requires Chain() && AllLive()
      modifies `outChunk, `outPos, `cache, `spine, `pages, `repr, `live, outChunk`next
      ensures Chain() && AllLive() && outPos == 0 && cache == null && fresh(repr - old(repr))
      ensures old(cache) != null ==> outChunk == old(cache) && live == old(live)
      ensures old(cache) == null ==> fresh(outChunk) && live == old(live) + {outChunk}
      ensures pages == old(pages) + [outChunk.msgs[..]] && outChunk.msgs.Length == granularity
    {
      if cache == null { Allocate(); }
      LiveLinked(live, spine, cache);
      LinkSpare();
      outPos := 0;
    }

    method LinkSpare()
      requires Chain() && cache != null
      modifies `outChunk, `cache, `spine, `pages, outChunk`next
      ensures Chain() && cache == null && spine == old(spine) + [outChunk] && outChunk == old(cache)
      ensures pages == old(pages) + [outChunk.msgs[..]] && outChunk.msgs.Length == granularity
    {
      outChunk.next := cache;
      outChunk := cache;
      spine, pages := spine + [outChunk], pages + [outChunk.msgs[..]];
      cache := null;
    }

    method Allocate()
      requires Chain() && AllLive() && cache == null
      modifies `cache, `repr, `live
      ensures Chain() && AllLive() && cache != null && fresh(repr - old(repr)) && repr >= old(repr)
      ensures fresh(cache) && live == old(live) + {cache}
    {
      var c := new Chunk(granularity);
      cache := c;
      live, repr := live + {c}, repr + {c, c.msgs};
    }

    /** A chunk of the queue that is not in the chain. */
    ghost predicate Apart(c: Chunk)
      reads `repr, `spine
    {
      Mine(c) && forall i :: 0 <= i < |spine| ==> spine[i] != c && spine[i].msgs != c.msgs
    }

    /** The read position has reached the end of its chunk: the chunk becomes the spare one, or is freed. */
    method NextRead()
      requires Chain() && AllLive() && |pages| > 1
      modifies `inChunk, `inPos, `cache, `spine, `pages, `live
      ensures Chain() && AllLive() && inPos == 0 && pages == old(pages)[1..] && live <= old(live)
      ensures if old(cache) == null then cache == old(inChunk) && live == old(live)
              else cache == old(cache) && live == old(live) - {old(inChunk)}
    {
      FirstOnce();
      LiveRead(live, spine, cache);
      var o := StepIn();
      if cache == null {
        KeepSpare(o);
      } else {
        live := live - {o};
      }
    }

    /** The first chunk is neither a later one nor the spare one. */
    lemma FirstOnce()
      requires Chain() && |pages| > 1
      ensures spine[0] !in spine[1..] && spine[0] != cache
    {
    }

    method KeepSpare(c: Chunk)
      requires Chain() && Apart(c)
      modifies `cache
      ensures Chain() && cache == c
    {
      cache := c;
    }

    /** On to the next chunk of the chain. */
    method StepIn() returns (o: Chunk)
      requires Chain() && |pages| > 1
      modifies `inChunk, `inPos, `spine, `pages
      ensures Chain() && inPos == 0 && pages == old(pages)[1..] && spine == old(spine)[1..]
      ensures o == old(spine[0]) && Apart(o)
    {
      assert Mine(spine[0]) && spine[0].next == spine[1];
      o := inChunk;
      inChunk := inChunk.next;
      inPos := 0;
      spine, pages := spine[1..], pages[1..];
    }

    /** Go on in the next chunk when the write position has reached the end of its chunk. */
    method AdvanceOut()
      requires Chain() && AllLive() && outPos == granularity && Holding(pages, granularity, inPos, outPos, contents)
      modifies `outChunk, `outPos, `cache, `spine, `pages, `repr, `live, outChunk`next
      ensures Chain() && AllLive() && outPos == 0 && Holding(pages, granularity, inPos, 0, contents)
      ensures fresh(repr - old(repr))
    {
      NextWrite();
      Grow(old(pages), granularity, inPos, contents, outChunk.msgs[..]);
    }

    /** A message goes into the slot at the write position. */
    method Append(m: Message)
      requires Chain() && outPos < granularity && Holding(pages, granularity, inPos, outPos, contents)
      requires mem == Total(contents)
      modifies `pages, `outPos, `contents, `count, `mem, outChunk.msgs
      ensures Chain() && contents == old(contents) + [m] && outPos == old(outPos) + 1
      ensures count == old(count) + 1 && mem == old(mem) + m.Size() == Total(contents)
      ensures Holding(pages, granularity, inPos, outPos, contents)
    {
      Put(pages, granularity, inPos, outPos, contents, m);
      TotalAppend(contents, m);
      WriteSlot(m);
      label Written:
      count := count + 1;
      mem := mem + m.Size();
      contents := contents + [m];
      outPos := outPos + 1;
      SameChain@Written();
    }

    /** A message that is not refused. */
    method Accept(m: Message)
      requires Valid() && (contents == [] || Total(contents) + m.Size() < maxmem)
      modifies this, repr
      ensures Valid() && fresh(repr - old(repr)) && contents == old(contents) + [m]
    {
      Append(m);
      if outPos == granularity { AdvanceOut(); }
    }

    /** nn_msgqueue_send: refused exactly when something is queued and the limit would be reached. */
    method Send(m: Message) returns (sent: bool)
      requires Valid()
      modifies this, repr
      ensures Valid() && fresh(repr - old(repr))
      ensures sent <==> old(contents) == [] || Total(old(contents)) + m.Size() < maxmem
      ensures contents == if sent then old(contents) + [m] else old(contents)
    {
      if count > 0 && mem + m.Size() >= maxmem { return false; }
      Accept(m);
      return true;
    }

    /** The message at the read position is taken out. */
    method RemoveFirst() returns (m: Message)
      requires Chain() && inPos < granularity && contents != []
      requires Holding(pages, granularity, inPos, outPos, contents) && count > 0 && mem == Total(contents)
      modifies `inPos, `contents, `count, `mem
      ensures Chain() && m == old(contents)[0] && contents == old(contents)[1..] && inPos == old(inPos) + 1
      ensures count == old(count) - 1 && mem == Total(contents) && mem <= old(mem)
      ensures Holding(pages, granularity, inPos, outPos, contents)
      ensures inPos == granularity && outPos < granularity ==> |pages| > 1
    {
      Take(pages, granularity, inPos, outPos, contents);
      m := ReadSlot();
      contents := contents[1..];
      inPos := inPos + 1;
      count := count - 1;
      mem := mem - m.Size();
      SameChain();
    }

    /** Go on in the next chunk when the read position has reached the end of its chunk. */
    method AdvanceIn()
      requires Chain() && AllLive() && inPos == granularity && |pages| > 1
      requires Holding(pages, granularity, inPos, outPos, contents)
      modifies `inChunk, `inPos, `cache, `spine, `pages, `live
      ensures Chain() && AllLive() && inPos == 0 && Holding(pages, granularity, 0, outPos, contents)
      ensures live <= old(live)
    {
      Hop(pages, granularity, outPos, contents);
      NextRead();
    }

    /** The oldest message, when there is one. */
    method TakeFirst() returns (m: Message)
      requires Valid() && contents != []
      modifies this, repr
      ensures Valid() && repr == old(repr) && live <= old(live)
      ensures m == old(contents)[0] && contents == old(contents)[1..]
    {
      m := RemoveFirst();
      if inPos == granularity { AdvanceIn(); }
    }

    /** nn_msgqueue_recv: the oldest message, in the order in which they were sent. */
    method Recv() returns (m: Option<Message>)
      requires Valid()
      modifies this, repr
      ensures Valid() && repr == old(repr)
      ensures m == if old(contents) == [] then None else Some(old(contents)[0])
      ensures contents == if old(contents) == [] then [] else old(contents)[1..]
      ensures live <= old(live)
    {
      if count == 0 { return None; }
      var first := TakeFirst();
      return Some(first);
    }

    /** nn_msgqueue_term: one chunk and perhaps the spare are left; each chunk is freed once. */
    method Term()
      requires Valid()
      modifies this, repr
      ensures live == {}
    {
      while true
        invariant Valid() && repr == old(repr)
        decreases |contents|
      {
        var m := Recv();
        if m.None? { break; }
      }
      Drained(pages, granularity, inPos, outPos);
      assert inChunk == outChunk && inPos == outPos && Mine(spine[0]);
      live := live - {inChunk};
      if cache != null {
        assert cache in live;
        live := live - {cache};
      }
    }
  }
}
