/**
 * Message chunks: a reference count, a size, and memory in which two words before the data say how much
 * space lies between the chunk's header and the data, and that there is a chunk at all.
 */
module Chunk {
  import opened Bytes
  import opened Wire

  const TAG: word := 0xdeadcafe
  const TAG_DEALLOCATED: word := 0xbeadfeed

  /** A chunk; `mem` is all that follows its header: empty space, the two words and the data. */
  datatype Cell = Cell(refcount: nat, size: nat, mem: seq<byte>)

  /** nn_chunk_alloc, the memory then filled with `data`. */
  function Alloc(data: seq<byte>): Cell {
    Cell(1, |data|, PutL(0) + PutL(TAG) + data)
  }

  /** Where the data of a new chunk start. */
  const START := 8

  /** The tag is in front of `p`, and nn_chunk_getptr finds the header of this chunk from there. */
  predicate Points(mem: seq<byte>, p: nat) {
    8 <= p <= |mem| && GetL(mem[p - 4..p]) == TAG && GetL(mem[p - 8..p - 4]) == p - 8
  }

  /** A pointer to everything that is left of the chunk's data. */
  predicate Intact(c: Cell, p: nat) {
    Points(c.mem, p) && p + c.size == |c.mem|
  }

  function Data(c: Cell, p: nat): seq<byte>
    requires p + c.size <= |c.mem|
  {
    c.mem[p..p + c.size]
  }

  function Write(mem: seq<byte>, at: nat, w: word): seq<byte>
    requires at + 4 <= |mem|
  {
    mem[..at] + PutL(w) + mem[at + 4..]
  }

  /** What the two assertions of nn_chunk_trim ask for. */
  predicate CanTrim(c: Cell, p: nat, n: nat) {
    Points(c.mem, p) && p + c.size <= |c.mem| && n <= c.size && p + n - 8 < 0xFFFF_FFFF
  }

  /** nn_chunk_trim; the data then start at `p + n`. */
  function Trim(c: Cell, p: nat, n: nat): Cell
    requires CanTrim(c, p, n)
  {
    var q := p + n;
    Cell(c.refcount, c.size - n, Write(Write(c.mem, q - 4, TAG), q - 8, q - 8))
  }

  lemma WordBack(w: word)
    ensures GetL(PutL(w)) == w
  {
    GetPut(w, []);
    assert PutL(w) + [] == PutL(w);
  }

  lemma AllocIntact(data: seq<byte>)
    ensures Intact(Alloc(data), START) && Data(Alloc(data), START) == data
  {
    var mem := Alloc(data).mem;
    assert mem[4..8] == PutL(TAG) && mem[0..4] == PutL(0);
    WordBack(TAG);
    WordBack(0);
  }

  lemma WriteAt(mem: seq<byte>, at: nat, w: word)
    requires at + 4 <= |mem|
    ensures |Write(mem, at, w)| == |mem| && GetL(Write(mem, at, w)[at..at + 4]) == w
    ensures forall i :: 0 <= i < at || at + 4 <= i < |mem| ==> Write(mem, at, w)[i] == mem[i]
  {
    assert Write(mem, at, w)[at..at + 4] == PutL(w);
    WordBack(w);
  }

  /** Trimming takes bytes off the front of the data and leaves a pointer to the rest. */
  lemma TrimIntact(c: Cell, p: nat, n: nat)
    requires Intact(c, p) && CanTrim(c, p, n)
    ensures Intact(Trim(c, p, n), p + n)
    ensures Data(Trim(c, p, n), p + n) == Data(c, p)[n..]
  {
    var q := p + n;
    var a := Write(c.mem, q - 4, TAG);
    WriteAt(c.mem, q - 4, TAG);
    WriteAt(a, q - 8, q - 8);
    assert Write(a, q - 8, q - 8)[q - 4..q] == a[q - 4..q];
  }

  /** A second reference to a chunk keeps its data through a trim exactly when nothing is trimmed. */
  lemma TrimShared(c: Cell, p: nat, n: nat)
    requires Intact(c, p) && CanTrim(c, p, n)
    ensures p + Trim(c, p, n).size <= |Trim(c, p, n).mem|
    ensures (Intact(Trim(c, p, n), p) && Data(Trim(c, p, n), p) == Data(c, p)) <==> n == 0
  {
    TrimIntact(c, p, n);
  }

  // ----------------------------------------------------------------------------- in place

  class HeapChunk {
    var refcount: nat
    var size: nat
    const mem: array<byte>

    ghost function Value(): Cell
      reads this, mem
    {
      Cell(refcount, size, mem[..])
    }

    /** nn_chunk_alloc, with the data. */
    constructor (data: seq<byte>)
      ensures Value() == Alloc(data) && Intact(Value(), START) && Data(Value(), START) == data && fresh(mem)
    {
      var all := PutL(0) + PutL(TAG) + data;
      refcount, size := 1, |data|;
      mem := new byte[|all|](i requires 0 <= i < |all| => all[i]);
      new;
      assert mem[..] == all;
      AllocIntact(data);
    }

    /** nn_putl into the chunk's memory. */
    method PutWord(at: nat, w: word)
      requires at + 4 <= mem.Length
      modifies mem
      ensures mem[..] == Write(old(mem[..]), at, w)
    {
      var bytes := PutL(w);
      mem[at], mem[at + 1], mem[at + 2], mem[at + 3] := bytes[0], bytes[1], bytes[2], bytes[3];
    }

    /** The two words in front of data that start at `q`. */
    method PutHeader(q: nat)
      requires 8 <= q <= mem.Length && q - 8 < 0x1_0000_0000
      modifies mem
      ensures mem[..] == Write(Write(old(mem[..]), q - 4, TAG), q - 8, q - 8)
    {
      PutWord(q - 4, TAG);
      PutWord(q - 8, q - 8);
    }

    /** nn_chunk_trim. */
    method TrimFront(p: nat, n: nat) returns (q: nat)
      requires CanTrim(Value(), p, n)
      modifies this`size, mem
      ensures q == p + n && Value() == Trim(old(Value()), p, n)
    {
      q := p + n;
      PutHeader(q);
      size := size - n;
    }

    /** nn_chunk_addref. */
    method AddRef(p: nat, n: nat)
      requires Points(mem[..], p)
      modifies `refcount
      ensures Value() == old(Value()).(refcount := old(refcount) + n)
    {
      refcount := refcount + n;
    }

    /** nn_chunk_free: the last reference marks the chunk, so that the pointer is no longer taken for one. */
    method Free(p: nat) returns (freed: bool)
      requires Points(mem[..], p) && refcount > 0
      modifies `refcount, mem
      ensures refcount == old(refcount) - 1 && (freed <==> refcount == 0)
      ensures !freed ==> mem[..] == old(mem[..])
      ensures freed ==> !Points(mem[..], p)
    {
      refcount := refcount - 1;
      freed := refcount == 0;
      if freed {
        WriteAt(mem[..], p - 4, TAG_DEALLOCATED);
        PutWord(p - 4, TAG_DEALLOCATED);
        assert mem[..][p - 4..p - 4 + 4] == mem[..][p - 4..p];
      }
    }
  }
}
