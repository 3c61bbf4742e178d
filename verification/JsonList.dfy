/** The children of an array or object: a doubly linked list whose edits are
    sequence edits. */
module JsonList {
  import opened JsonText
  import opened Sequences

  class Item {
    var next: Item?
    var prev: Item?
    var value: Json

    constructor (value: Json)
      ensures this.value == value && next == null && prev == null
    {
      this.value, next, prev := value, null, null;
    }
  }

  // An index before the front means the front.
  function Index(which: int): (i: nat)
    ensures i == if which > 0 then which else 0
  {
    if which > 0 then which else 0
  }

  class ChildList {
    var child: Item?
    ghost var items: seq<Item>

    ghost predicate Valid()
      reads this, items
    {
      && (forall i, j | 0 <= i < j < |items| :: items[i] != items[j])
      && (forall i | 0 <= i < |items| - 1 :: items[i].next == items[i + 1])
      && (forall i | 0 < i < |items| :: items[i].prev == items[i - 1])
      && (if items == [] then child == null
          else child == items[0] && items[0].prev == null && items[|items| - 1].next == null)
    }

    constructor ()
      ensures Valid() && items == []
    {
      child, items := null, [];
    }

    lemma Neighbours(i: nat)
      requires Valid() && i < |items|
      ensures items[i].next == (if i + 1 < |items| then items[i + 1] else null)
      ensures items[i].prev == (if i > 0 then items[i - 1] else null)
      ensures items[i] == child <==> i == 0
    {
    }

    // Walks `which` steps; null past the end.
    method GetItem(which: int) returns (c: Item?)
      requires Valid()
      ensures c == if Index(which) < |items| then items[Index(which)] else null
    {
      c := child;
      var left := which;
      ghost var i := 0;
      while c != null && left > 0
        invariant i <= |items| && c == (if i < |items| then items[i] else null)
        invariant Index(which) == i + Index(left)
        decreases |items| - i
      {
        Neighbours(i);
        c, left, i := c.next, left - 1, i + 1;
      }
    }

    /** cJSON_AddItemToArray */
    method Append(item: Item)
      requires Valid() && item !in items && item.next == null && item.prev == null
      modifies this, items, item
      ensures Valid() && items == old(items) + [item]
    {
      var c := child;
      if c == null {
        child := item;
      } else {
        ghost var i := 0;
        while c.next != null
          modifies {}
          invariant i < |items| && c == items[i]
          decreases |items| - i
        {
          Neighbours(i);
          c, i := c.next, i + 1;
        }
        Neighbours(i);
        c.next := item;
        item.prev := c;
      }
      items := items + [item];
    }

    /** cJSON_DetachItemFromArray: the item comes out pointing nowhere. */
    method Detach(which: int) returns (c: Item?)
      requires Valid()
      modifies this, items
      ensures Valid()
      ensures var i := Index(which); var was := old(items);
              if i < |was| then c == was[i] && c.next == null && c.prev == null && items == was[..i] + was[i + 1..]
              else c == null && items == was
    {
      c := GetItem(which);
      if c == null {
        return;
      }
      Bypass(c, Index(which));
      c.prev, c.next := null, null;
    }

    // The neighbours of the i-th item come to point past it.
    method Bypass(c: Item, ghost i: nat)
      requires Valid() && i < |items| && c == items[i]
      modifies this, items
      ensures Valid() && items == old(items[..i] + items[i + 1..]) && c !in items
    {
      Neighbours(i);
      if c.prev != null {
        c.prev.next := c.next;
      }
      if c.next != null {
        c.next.prev := c.prev;
      }
      if c == child {
        child := c.next;
      }
      items := items[..i] + items[i + 1..];
    }

    /** cJSON_InsertItemInArray: before the item at the index, or at the end. */
    method Insert(which: int, newitem: Item)
      requires Valid() && newitem !in items
      requires Index(which) < |items| || (newitem.next == null && newitem.prev == null)
      modifies this, items, newitem
      ensures Valid()
      ensures var i := Index(which); var was := old(items);
              items == if i < |was| then was[..i] + [newitem] + was[i..] else was + [newitem]
    {
      var c := GetItem(which);
      if c == null {
        Append(newitem);
        return;
      }
      LinkBefore(c, Index(which), newitem);
    }

    method LinkBefore(c: Item, ghost i: nat, newitem: Item)
      requires Valid() && i < |items| && c == items[i] && newitem !in items
      modifies this, items, newitem
      ensures Valid() && items == old(items[..i] + [newitem] + items[i..])
    {
      Neighbours(i);
      Spliced(items, i, newitem);
      newitem.next, newitem.prev := c, c.prev;
      c.prev := newitem;
      if c == child {
        child := newitem;
      } else {
        newitem.prev.next := newitem;
      }
      items := items[..i] + [newitem] + items[i..];
    }

    /** cJSON_ReplaceItemInArray: the replaced item is cut off. */
    method Replace(which: int, newitem: Item)
      requires Valid() && newitem !in items
      modifies this, items, newitem
      ensures Valid()
      ensures var i := Index(which); var was := old(items);
              if i < |was| then items == was[i := newitem] && was[i].next == null && was[i].prev == null
              else items == was && newitem.next == old(newitem.next) && newitem.prev == old(newitem.prev)
    {
      var c := GetItem(which);
      if c == null {
        return;
      }
      TakePlace(c, Index(which), newitem);
      c.next, c.prev := null, null;
    }

    // The new item takes over the i-th one's neighbours.
    method TakePlace(c: Item, ghost i: nat, newitem: Item)
      requires Valid() && i < |items| && c == items[i] && newitem !in items
      modifies this, items, newitem
      ensures Valid() && items == old(items)[i := newitem] && c !in items
    {
      Neighbours(i);
      newitem.next := c.next;
      newitem.prev := c.prev;
      if newitem.next != null {
        newitem.next.prev := newitem;
      }
      if c == child {
        child := newitem;
      } else {
        newitem.prev.next := newitem;
      }
      items := items[i := newitem];
    }
  }
}
