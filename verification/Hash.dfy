/**
 * The chained hash table from 32-bit keys to items, which doubles its slots as it fills.
 *
 * The buckets are lists (module List proves their links) of keys and items.  Nothing here depends
 * on which hash function is used.
 */
module Hash {
  import opened Wire
  import opened Wrappers

  const INITIAL_SLOTS := 32
  const MAX_SLOTS := 0x8000_0000
  const COUNTER_MOD := 0x1_0000_0000

  /** nn_hash_key, which `Init` gives a new table. */
  function NnHashKey(key: word): word {
    var k0 := key as bv32;
    var k1 := (k0 ^ 61) ^ (k0 >> 16);
    var k2 := k1 + (k1 << 3);
    var k3 := k2 ^ (k2 >> 4);
    var k4 := k3 * 0x27d4eb2d;
    (k4 ^ (k4 >> 15)) as int
  }

  function Pow2(k: nat): (n: nat)
    ensures n > 0
  {
    if k == 0 then 1 else 2 * Pow2(k - 1)
  }

  lemma {:induction false} Pow2Grows(j: nat, k: nat)
    requires j <= k
    ensures Pow2(j) <= Pow2(k)
    decreases k
  {
    if j < k { Pow2Grows(j, k - 1); }
  }

  lemma Pow2Values()
    ensures Pow2(5) == INITIAL_SLOTS && Pow2(31) == MAX_SLOTS
  {
    assert Pow2(8) == 256;
    assert Pow2(16) == 65536;
    assert Pow2(24) == 0x100_0000;
  }

  /** Below 2^31 slots there is room to double. */
  lemma NextDoubling(k: nat)
    requires 5 <= k <= 31
    ensures 32 <= Pow2(k) <= MAX_SLOTS && (Pow2(k) < MAX_SLOTS <==> k < 31)
    ensures k < 31 ==> Pow2(k + 1) == 2 * Pow2(k)
  {
    Pow2Values();
    Pow2Grows(5, k);
    Pow2Grows(k, 31);
    if k < 31 { Pow2Grows(k, 30); }
  }

  lemma NextCount(inserted: nat)
    ensures (inserted % COUNTER_MOD + 1) % COUNTER_MOD == (inserted + 1) % COUNTER_MOD
  {
  }

  lemma Small(n: nat)
    requires n < COUNTER_MOD
    ensures n % COUNTER_MOD == n
  {
  }

  /** While there is room to double, the comparison in 32-bit arithmetic is that of whole numbers. */
  lemma CounterStep(inserted: nat, k: nat)
    requires 5 <= k <= 31 && (2 * inserted <= Pow2(k) || Pow2(k) == MAX_SLOTS)
    ensures var items := (inserted + 1) % COUNTER_MOD;
            Pow2(k) < MAX_SLOTS ==>
              && k < 31 && 2 * (inserted + 1) <= Pow2(k + 1) == 2 * Pow2(k)
              && ((items * 2) % COUNTER_MOD > Pow2(k) <==> 2 * (inserted + 1) > Pow2(k))
  {
    NextDoubling(k);
    if Pow2(k) < MAX_SLOTS {
      Small(inserted + 1);
      Small((inserted + 1) * 2);
    }
  }

  datatype Entry<T> = Entry(key: word, item: T)

  /** The place of a key's entry in a bucket, -1 if there is none. */
  function Place<T>(b: seq<Entry<T>>, key: word): (i: int)
    ensures -1 <= i < |b|
    ensures i >= 0 ==> b[i].key == key && forall j :: 0 <= j < i ==> b[j].key != key
    ensures i == -1 ==> forall j :: 0 <= j < |b| ==> b[j].key != key
  {
    if b == [] then -1
    else if b[0].key == key then 0
    else
      var r := Place(b[1..], key);
      if r == -1 then -1 else r + 1
  }

  /** A bucket holds one entry for each key of the table that hashes to it, and nothing else. */
  ghost predicate BucketOk<T(!new)>(b: seq<Entry<T>>, keys: set<word>, contents: map<word, T>) {
    && (forall j :: 0 <= j < |b| ==> b[j].key in keys && b[j].key in contents && contents[b[j].key] == b[j].item)
    && (forall i, j :: 0 <= i < j < |b| ==> b[i].key != b[j].key)
    && (forall k :: k in keys ==> Place(b, k) != -1)
  }

  ghost function KeysIn(hash: word -> word, contents: set<word>, slots: nat, slot: nat): set<word>
    requires slots > 0
  {
    set k | k in contents && hash(k) as int % slots == slot
  }

  class HashTable<T(!new)> {
    const hash: word -> word
    var slots: nat
    var items: nat
    var buckets: array<seq<Entry<T>>>

    ghost var contents: map<word, T>
    /** The number of insertions so far. */
    ghost var inserted: nat
    ghost var doublings: nat

    ghost predicate Valid()
      reads this, buckets
    {
      && 5 <= doublings <= 31 && slots == Pow2(doublings) && buckets.Length == slots
      && items == inserted % COUNTER_MOD
      && |contents| <= inserted
      && (2 * inserted <= slots || slots == MAX_SLOTS)
      && (forall i :: 0 <= i < buckets.Length ==>
            BucketOk(buckets[i], KeysIn(hash, contents.Keys, slots, i), contents))
    }

    constructor (hash: word -> word)
      ensures Valid() && contents == map[] && inserted == 0 && slots == 32 && this.hash == hash && fresh(buckets)
    {
      this.hash := hash;
      slots, items := INITIAL_SLOTS, 0;
      buckets := new seq<Entry<T>>[INITIAL_SLOTS](_ => []);
      contents, inserted, doublings := map[], 0, 5;
      new;
      Pow2Values();
    }

    /** Until the counter wraps it bounds the items, and the load, until there are 2^31 slots. */
    lemma Load()
      requires Valid() && inserted < COUNTER_MOD
      ensures |contents| <= items && (2 * items <= slots || slots == MAX_SLOTS)
    {
    }

    /** nn_hash_get */
    method Get(key: word) returns (r: Option<T>)
      requires Valid()
      ensures r == if key in contents then Some(contents[key]) else None
    {
      var slot := hash(key) as int % slots;
      var b := buckets[slot];
      assert BucketOk(b, KeysIn(hash, contents.Keys, slots, slot), contents);
      var i := 0;
      while i < |b|
        invariant i <= |b| && forall j :: 0 <= j < i ==> b[j].key != key
      {
        if b[i].key == key { return Some(b[i].item); }
        i := i + 1;
      }
      assert Place(b, key) == -1;
      return None;
    }

    /** The list part of nn_hash_insert; a key that is present already fails the assertion in the scan. */
    method InsertEntry(key: word, item: T)
      requires slots > 0 && Holds(buckets, slots, contents.Keys) && key !in contents
      modifies this`contents, buckets
      ensures Holds(buckets, slots, contents.Keys)
      ensures contents == old(contents)[key := item]
    {
      var i := hash(key) as int % slots;
      var b := buckets[i];
      assert BucketOk(b, KeysIn(hash, contents.Keys, slots, i), contents);
      for j := 0 to |b| {
        assert b[j].key != key;
      }
      buckets[i] := b + [Entry(key, item)];
      InsertedBucket(b, KeysIn(hash, contents.Keys, slots, i), contents, key, item);
      contents := contents[key := item];
      forall j | 0 <= j < buckets.Length
        ensures BucketOk(buckets[j], KeysIn(hash, contents.Keys, slots, j), contents)
      {
        if j == i {
          assert KeysIn(hash, contents.Keys, slots, j) == KeysIn(hash, old(contents).Keys, slots, j) + {key};
        } else {
          assert BucketOk(old(buckets[j]), KeysIn(hash, old(contents).Keys, slots, j), old(contents));
          assert KeysIn(hash, contents.Keys, slots, j) == KeysIn(hash, old(contents).Keys, slots, j);
        }
      }
    }

    /** nn_hash_insert */
    method Insert(key: word, item: T)
      requires Valid() && key !in contents
      modifies this, buckets
      ensures Valid() && contents == old(contents)[key := item] && inserted == old(inserted) + 1
      ensures fresh(buckets) || buckets == old(buckets)
      ensures slots == if old(slots) < MAX_SLOTS && 2 * inserted > old(slots) then 2 * old(slots) else old(slots)
    {
      NextCount(inserted);
      CounterStep(inserted, doublings);
      InsertEntry(key, item);
      assert |contents| == |old(contents)| + 1;
      items := (items + 1) % COUNTER_MOD;
      inserted := inserted + 1;
      NextDoubling(doublings);
      if (items * 2) % COUNTER_MOD > slots && slots < MAX_SLOTS { Rehash(); }
    }

    /** The buckets of a table of `n` slots that hold the entries of the keys in `moved`. */
    ghost predicate Holds(a: array<seq<Entry<T>>>, n: nat, moved: set<word>)
      requires n > 0
      reads this, a
    {
      a.Length == n &&
      forall i :: 0 <= i < a.Length ==> BucketOk(a[i], KeysIn(hash, moved, n, i), contents)
    }

    /** nn_hash_rehash */
    method Rehash()
      requires 5 <= doublings < 31 && slots == Pow2(doublings)
      requires Holds(buckets, slots, contents.Keys)
      modifies this`slots, this`buckets, this`doublings, buckets
      ensures doublings == old(doublings) + 1 && slots == Pow2(doublings) == 2 * old(slots)
      ensures Holds(buckets, slots, contents.Keys) && fresh(buckets)
    {
      var oldSlots, oldBuckets := slots, buckets;
      slots, doublings := slots * 2, doublings + 1;
      buckets := new seq<Entry<T>>[slots](_ => []);
      ghost var moved: set<word> := {};
      for i := 0 to oldSlots
        invariant slots == 2 * oldSlots && oldBuckets == old(buckets) && oldBuckets.Length == oldSlots
        invariant fresh(buckets) && moved <= contents.Keys
        invariant doublings == old(doublings) + 1 && slots == Pow2(doublings)
        invariant Holds(buckets, slots, moved)
        invariant forall k :: k in contents.Keys && hash(k) as int % oldSlots < i ==> k in moved
        invariant forall k :: k in moved ==> hash(k) as int % oldSlots < i
        invariant forall j :: i <= j < oldSlots ==> oldBuckets[j] == old(buckets[j])
      {
        moved := MoveBucket(oldBuckets, oldSlots, i, moved);
      }
      assert moved == contents.Keys;
    }

    /** Move the entries of one old bucket, first to last, to the ends of their new ones. */
    method MoveBucket(from: array<seq<Entry<T>>>, oldSlots: nat, i: nat, ghost moved: set<word>)
      returns (ghost moved': set<word>)
      requires i < from.Length == oldSlots && from != buckets && slots > 0
      requires moved <= contents.Keys && Holds(buckets, slots, moved)
      requires BucketOk(from[i], KeysIn(hash, contents.Keys, oldSlots, i), contents)
      requires forall k :: k in moved ==> hash(k) as int % oldSlots < i
      modifies from, buckets
      ensures moved' == moved + KeysIn(hash, contents.Keys, oldSlots, i)
      ensures Holds(buckets, slots, moved')
      ensures forall j :: 0 <= j < oldSlots && j != i ==> from[j] == old(from[j])
    {
      moved' := moved;
      ghost var left := KeysIn(hash, contents.Keys, oldSlots, i);
      while |from[i]| != 0
        invariant forall j :: 0 <= j < oldSlots && j != i ==> from[j] == old(from[j])
        invariant BucketOk(from[i], left, contents)
        invariant left <= KeysIn(hash, contents.Keys, oldSlots, i)
        invariant moved' == moved + (KeysIn(hash, contents.Keys, oldSlots, i) - left)
        invariant Holds(buckets, slots, moved')
        decreases |from[i]|
      {
        var e := from[i][0];
        HeadOfBucket(from[i], left, contents);
        from[i] := from[i][1..];
        left := left - {e.key};
        var newSlot := hash(e.key) as int % slots;
        assert e.key !in moved';
        AppendMoved(newSlot, e, moved');
        buckets[newSlot] := buckets[newSlot] + [e];
        moved' := moved' + {e.key};
      }
      if k :| k in left { assert Place(from[i], k) != -1; }
    }

    /** An entry appended to its bucket: that bucket, and all the others, hold one key more. */
    lemma AppendMoved(slot: nat, e: Entry<T>, moved: set<word>)
      requires slots > 0 && Holds(buckets, slots, moved) && e.key !in moved
      requires slot == hash(e.key) as int % slots
      requires e.key in contents && contents[e.key] == e.item
      ensures BucketOk(buckets[slot] + [e], KeysIn(hash, moved + {e.key}, slots, slot), contents)
      ensures forall i :: 0 <= i < slots && i != slot ==>
                BucketOk(buckets[i], KeysIn(hash, moved + {e.key}, slots, i), contents)
    {
      AppendedBucket(buckets[slot], KeysIn(hash, moved, slots, slot), contents, e);
      assert KeysIn(hash, moved + {e.key}, slots, slot) == KeysIn(hash, moved, slots, slot) + {e.key};
      forall i | 0 <= i < slots && i != slot
        ensures BucketOk(buckets[i], KeysIn(hash, moved + {e.key}, slots, i), contents)
      {
        assert KeysIn(hash, moved + {e.key}, slots, i) == KeysIn(hash, moved, slots, i);
      }
    }

    /** nn_hash_erase, of an item that is in the table. */
    method Erase(key: word, item: T)
      requires Valid() && key in contents && contents[key] == item
      modifies this`contents, buckets
      ensures Valid() && contents == old(contents) - {key}
    {
      var slot := hash(key) as int % slots;
      assert BucketOk(buckets[slot], KeysIn(hash, contents.Keys, slots, slot), contents);
      var i := Place(buckets[slot], key);
      var b := buckets[slot][..i] + buckets[slot][i + 1..];
      ErasedBucket(buckets[slot], KeysIn(hash, contents.Keys, slots, slot), contents, i, key);
      buckets[slot] := b;
      contents := contents - {key};
      forall j | 0 <= j < buckets.Length
        ensures BucketOk(buckets[j], KeysIn(hash, contents.Keys, slots, j), contents)
      {
        if j == slot {
          assert KeysIn(hash, contents.Keys, slots, j) == KeysIn(hash, old(contents).Keys, slots, j) - {key};
        } else {
          assert BucketOk(old(buckets[j]), KeysIn(hash, old(contents).Keys, slots, j), old(contents));
          assert KeysIn(hash, contents.Keys, slots, j) == KeysIn(hash, old(contents).Keys, slots, j);
        }
      }
    }
  }

  lemma ErasedBucket<T(!new)>(b: seq<Entry<T>>, keys: set<word>, contents: map<word, T>, i: nat, key: word)
    requires BucketOk(b, keys, contents) && i < |b| && b[i].key == key
    ensures BucketOk(b[..i] + b[i + 1..], keys - {key}, contents - {key})
  {
    var b' := b[..i] + b[i + 1..];
    forall k | k in keys - {key} ensures Place(b', k) != -1 {
      var j := Place(b, k);
      assert b'[if j < i then j else j - 1].key == k;
    }
  }

  lemma AppendedBucket<T(!new)>(b: seq<Entry<T>>, keys: set<word>, contents: map<word, T>, e: Entry<T>)
    requires BucketOk(b, keys, contents) && e.key !in keys && e.key in contents && contents[e.key] == e.item
    ensures BucketOk(b + [e], keys + {e.key}, contents)
  {
    var b' := b + [e];
    forall k | k in keys + {e.key} ensures Place(b', k) != -1 {
      assert b'[if k == e.key then |b| else Place(b, k)].key == k;
    }
  }

  lemma InsertedBucket<T(!new)>(b: seq<Entry<T>>, keys: set<word>, contents: map<word, T>, key: word, item: T)
    requires BucketOk(b, keys, contents) && key !in contents && keys <= contents.Keys
    ensures BucketOk(b + [Entry(key, item)], keys + {key}, contents[key := item])
  {
    assert BucketOk(b, keys, contents[key := item]);
    AppendedBucket(b, keys, contents[key := item], Entry(key, item));
  }

  lemma HeadOfBucket<T(!new)>(b: seq<Entry<T>>, keys: set<word>, contents: map<word, T>)
    requires BucketOk(b, keys, contents) && b != []
    ensures b[0].key in keys && BucketOk(b[1..], keys - {b[0].key}, contents)
  {
    forall k | k in keys - {b[0].key} ensures Place(b[1..], k) != -1 {
      assert b[1..][Place(b, k) - 1].key == k;
    }
  }

  /** nn_hash_init */
  method Init<T(!new)>() returns (table: HashTable<T>)
    ensures fresh(table) && fresh(table.buckets) && table.Valid()
    ensures table.hash == NnHashKey && table.contents == map[] && table.inserted == 0 && table.slots == 32
  {
    table := new HashTable(NnHashKey);
  }
}
