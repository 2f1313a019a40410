/**
 * The intrusive doubly linked list under the queues, tables and schedules: links in the items
 * themselves, a distinguished value in both links of an item that is in no list.
 */
module List {
  datatype Link = NotInList | Null | To(item: Item)

  class Item {
    var prev: Link
    var next: Link

    /** nn_list_item_init */
    constructor ()
      ensures prev == NotInList && next == NotInList
    {
      prev, next := NotInList, NotInList;
    }

    predicate IsInList()
      reads this
    {
      prev != NotInList
    }
  }

  function Before(items: seq<Item>, i: nat): Link
    requires i <= |items|
  {
    if i == 0 then Null else To(items[i - 1])
  }

  function After(items: seq<Item>, i: int): Link
    requires -1 <= i < |items|
  {
    if i == |items| - 1 then Null else To(items[i + 1])
  }

  /** The links of the items, and the ends, are those of the sequence. */
  ghost predicate LinksOk(items: seq<Item>, first: Link, last: Link)
    reads items
  {
    && (forall i, j :: 0 <= i < j < |items| ==> items[i] != items[j])
    && first == After(items, -1)
    && last == Before(items, |items|)
    && (forall i {:trigger items[i].prev} :: 0 <= i < |items| ==> items[i].prev == Before(items, i))
    && (forall i {:trigger items[i].next} :: 0 <= i < |items| ==> items[i].next == After(items, i))
  }

  /** A new item with its own links, to which the items before and after its place lead. */
  lemma InsertedOk(was: seq<Item>, item: Item, i: nat, first: Link, last: Link)
    requires i <= |was| && item !in was
    requires forall j, k :: 0 <= j < k < |was| ==> was[j] != was[k]
    requires item.prev == Before(was, i) && item.next == After(was, i - 1)
    requires first == if i == 0 then To(item) else After(was, -1)
    requires last == if i == |was| then To(item) else Before(was, |was|)
    requires forall k {:trigger was[k].prev} :: 0 <= k < |was| ==>
               was[k].prev == if k == i then To(item) else Before(was, k)
    requires forall k {:trigger was[k].next} :: 0 <= k < |was| ==>
               was[k].next == if k + 1 == i then To(item) else After(was, k)
    ensures LinksOk(was[..i] + [item] + was[i..], first, last)
  {
    var items := was[..i] + [item] + was[i..];
    forall k | 0 <= k < |items| ensures items[k].prev == Before(items, k) && items[k].next == After(items, k) {
      if k < i {
        assert items[k] == was[k];
      } else if k > i {
        assert items[k] == was[k - 1];
      }
    }
  }

  class List {
    var first: Link
    var last: Link
    /** The items, in order. */
    ghost var items: seq<Item>

    ghost predicate Valid()
      reads this, items
    {
      LinksOk(items, first, last)
    }

    constructor ()
      ensures Valid() && items == []
    {
      first, last, items := Null, Null, [];
    }

    /** nn_list_empty */
    method Empty() returns (empty: bool)
      requires Valid()
      ensures empty <==> items == []
    {
      empty := first == Null;
    }

    /** nn_list_prev of an item, or of the end when there is none. */
    method Prev(ghost i: nat, it: Link) returns (r: Link)
      requires Valid() && i <= |items| && it == After(items, i - 1)
      ensures r == Before(items, i)
    {
      if it == Null { return last; }
      assert it.item.prev != NotInList;
      return it.item.prev;
    }

    /** nn_list_next */
    method Next(ghost i: nat, it: Item) returns (r: Link)
      requires Valid() && i < |items| && items[i] == it
      ensures r == After(items, i)
    {
      assert it.next != NotInList;
      return it.next;
    }

    /** What precedes the place of a new item leads to it. */
    method LeadTo(item: Item, it: Link, ghost i: nat)
      requires Valid() && i <= |items| && it == After(items, i - 1) && item.prev == Before(items, i) && item !in items
      modifies `first, items
      ensures first == if i == 0 then To(item) else old(first)
      ensures forall k {:trigger items[k].prev} :: 0 <= k < |items| ==> items[k].prev == old(items[k].prev)
      ensures forall k {:trigger items[k].next} :: 0 <= k < |items| ==>
                items[k].next == if k + 1 == i then To(item) else old(items[k].next)
    {
      if item.prev.To? { item.prev.item.next := To(item); }
      if first == Null || first == it { first := To(item); }
    }

    /** What follows the place of a new item leads back to it. */
    method LeadBack(item: Item, it: Link, ghost i: nat)
      requires i <= |items| && it == After(items, i - 1) && item.next == it && item !in items
      requires forall j, k :: 0 <= j < k < |items| ==> items[j] != items[k]
      modifies `last, items
      ensures last == if i == |items| then To(item) else old(last)
      ensures forall k {:trigger items[k].next} :: 0 <= k < |items| ==> items[k].next == old(items[k].next)
      ensures forall k {:trigger items[k].prev} :: 0 <= k < |items| ==>
                items[k].prev == if k == i then To(item) else old(items[k].prev)
    {
      if item.next.To? { item.next.item.prev := To(item); }
      if it == Null { last := To(item); }
    }

    /** nn_list_insert: the item goes before `it`, at the end if that is Null. */
    method Insert(item: Item, it: Link, ghost i: nat)
      requires Valid() && i <= |items| && it == After(items, i - 1)
      requires item !in items
      requires !item.IsInList()
      modifies this, items, item
      ensures Valid() && items == old(items[..i]) + [item] + old(items[i..])
      ensures item.IsInList()
    {
      assert !item.IsInList();
      item.prev := if it.To? then it.item.prev else last;
      item.next := it;
      LeadTo(item, it, i);
      LeadBack(item, it, i);
      InsertedOk(items, item, i, first, last);
      items := items[..i] + [item] + items[i..];
      assert items[i] == item;
    }

    /** The items next to an item are linked with each other. */
    method Bypass(item: Item, ghost i: nat)
      requires Valid() && i < |items| && items[i] == item
      modifies this, items
      ensures Valid() && items == old(items[..i]) + old(items[i + 1..])
      ensures item.prev == old(item.prev) && item.next == old(item.next)
    {
      if item.prev.To? { item.prev.item.next := item.next; } else { first := item.next; }
      if item.next.To? { item.next.item.prev := item.prev; } else { last := item.prev; }
      items := items[..i] + items[i + 1..];
    }

    /** nn_list_erase: the result is the item that followed. */
    method Erase(item: Item, ghost i: nat) returns (r: Link)
      requires Valid() && i < |items| && items[i] == item
      modifies this, items
      ensures Valid() && items == old(items[..i]) + old(items[i + 1..])
      ensures !item.IsInList() && item.next == NotInList
      ensures r == After(items, i - 1)
    {
      assert item.IsInList();
      r := item.next;
      Bypass(item, i);
      item.prev, item.next := NotInList, NotInList;
    }
  }
}
