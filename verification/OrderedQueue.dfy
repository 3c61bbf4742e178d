/** The linked queue of slots behind both the TC and the ST queue: a sentinel
    head, a tail pointer and a size. */
module LinkedQueue {
  import opened Ordinals
  import opened Packets
  import opened Sequences
  import opened Slots

  class Node<T> {
    var ord: Ordinal
    var body: T
    var next: Node?<T>

    constructor (ord: Ordinal, body: T, next: Node?<T>)
      ensures this.ord == ord && this.body == body && this.next == next
    {
      this.ord, this.body, this.next := ord, body, next;
    }
  }

  class OrderedQueue<T> {
    const head: Node<T>
    var tail: Node<T>
    var size: nat
    // The sentinel and the nodes behind it, in order.
    ghost var spine: seq<Node<T>>
    ghost var Repr: set<object>

    // The nodes are linked up, whatever the tail pointer says.
    ghost predicate Linked()
      reads this, Repr
    {
      && this in Repr && (forall i | 0 <= i < |spine| :: spine[i] in Repr)
      && 0 < |spine| && spine[0] == head && size == |spine| - 1
      && (forall i, j | 0 <= i < j < |spine| :: spine[i] != spine[j])
      && (forall i | 0 <= i < |spine| - 1 :: spine[i].next == spine[i + 1])
      && spine[|spine| - 1].next == null
    }

    ghost predicate Valid()
      reads this, Repr
    {
      this in Repr && Linked() && tail == spine[|spine| - 1]
    }

    ghost function Contents(): (q: seq<Slot<T>>)
      reads this, Repr
      requires Linked()
      ensures |q| == size && forall i | 0 <= i < size :: q[i] == Slot(spine[i + 1].ord, spine[i + 1].body)
    {
      var ns := spine;
      seq(size, i requires 0 <= i < |ns| - 1 reads ns => Slot(ns[i + 1].ord, ns[i + 1].body))
    }

    // An empty queue; the sentinel's own fields are never read.
    constructor (blank: T)
      ensures Valid() && Contents() == [] && fresh(Repr)
    {
      var h := new Node(ZERO, blank, null);
      head, tail, size, spine := h, h, 0, [h];
      Repr := {this, h};
    }

    /** Finds the node for `o`, inserting a blank one in its place if there is
        none.  Ordinals beyond the tail skip the search. */
    method Locate(o: Ordinal, blank: T) returns (n: Node<T>)
      requires Valid() && Sorted(Contents())
      modifies Repr
      ensures Valid() && fresh(Repr - old(Repr))
      ensures Contents() == Ensure(old(Contents()), o, blank)
      ensures var k := Position(old(Contents()), o); k < size && n == spine[k + 1]
    {
      ghost var q, k := Contents(), Position(Contents(), o);
      n := tail;
      ghost var at := size;
      var isNew := true;
      if head.next != null && Compare(o, tail.ord) <= 0 {
        n, at := head, 0;
        while n.next != null && Compare(o, n.next.ord) > 0
          invariant at <= size && n == spine[at]
          invariant forall i | 0 <= i < at :: Less(q[i].ord, o)
          decreases size - at
        {
          assert n.next == spine[at + 1] && q[at].ord == spine[at + 1].ord;
          n, at := n.next, at + 1;
        }
        PositionUnique(q, o, at);
        if n.next != null && Compare(o, n.next.ord) == 0 {
          n, isNew := n.next, false;
        }
      } else {
        if size > 0 {
          assert q[size - 1].ord == tail.ord;
        }
        PositionUnique(q, o, at);
      }
      if isNew {
        InsertAfter(n, at, o, blank);
        n := n.next;
      }
    }

    // Links a new node behind the at-th.
    method InsertAfter(ptr: Node<T>, ghost at: nat, o: Ordinal, blank: T)
      requires Valid() && at <= size && ptr == spine[at]
      modifies this, ptr
      ensures Valid() && fresh(Repr - old(Repr))
      ensures Contents() == old(Contents())[..at] + [Slot(o, blank)] + old(Contents())[at..]
      ensures ptr.next == spine[at + 1]
    {
      hide Contents;
      ghost var before, q := spine, Contents();
      Link(ptr, at, o, blank);
      forall i | 0 <= i < size
        ensures Contents()[i] == if i < at then q[i] else if i == at then Slot(o, blank) else q[i - 1]
      {
        assert i < at ==> spine[i + 1] == before[i + 1];
        assert i > at ==> spine[i + 1] == before[i];
      }
      assert Contents() == q[..at] + [Slot(o, blank)] + q[at..];
    }

    method Link(ptr: Node<T>, ghost at: nat, o: Ordinal, blank: T)
      requires Valid() && at <= size && ptr == spine[at]
      modifies this, ptr`next
      ensures Valid() && fresh(Repr - old(Repr)) && size == old(size) + 1
      ensures forall i | 0 <= i <= at :: spine[i] == old(spine)[i]
      ensures forall i | at + 1 < i < |spine| :: spine[i] == old(spine)[i - 1]
      ensures fresh(spine[at + 1]) && spine[at + 1].ord == o && spine[at + 1].body == blank && ptr.next == spine[at + 1]
    {
      ghost var before := spine;
      var n := new Node(o, blank, ptr.next);
      ptr.next := n;
      if ptr == tail {
        tail := n;
      }
      size := size + 1;
      Repr := Repr + {n};
      Spliced(before, at + 1, n);
      spine := before[..at + 1] + [n] + before[at + 1..];
      assert forall i | 0 <= i <= at :: spine[i] == before[i];
    }

    // Unlinks the front node, leaving the tail pointer alone.
    method Unlink() returns (s: Slot<T>, was: Node<T>)
      requires Linked() && size > 0
      modifies this`size, this`spine, head`next
      ensures Linked() && Repr == old(Repr)
      ensures was == old(spine[1]) && spine[|spine| - 1] == if size == 0 then head else old(spine[|spine| - 1])
      ensures s == old(Contents())[0] && Contents() == old(Contents())[1..]
    {
      assert head.next == spine[1];
      was := head.next;
      s := Slot(was.ord, was.body);
      head.next := was.next;
      size := size - 1;
      spine := [head] + spine[2..];
    }

    // Takes the front slot; an emptied queue's tail goes back to the sentinel.
    method PopFront() returns (s: Slot<T>)
      requires Valid() && size > 0
      modifies Repr
      ensures Valid() && Repr == old(Repr)
      ensures s == old(Contents())[0] && Contents() == old(Contents())[1..]
    {
      var d;
      s, d := Unlink();
      if tail == d {
        tail := head;
      }
    }

    method SetBody(n: Node<T>, ghost k: nat, b: T)
      requires Valid() && k < size && n == spine[k + 1]
      modifies n`body
      ensures Valid() && Contents() == Slots.SetBody(old(Contents()), k, b)
    {
      n.body := b;
    }

    // Frees every node.
    method Clear()
      requires Valid()
      modifies Repr
      ensures Valid() && Repr == old(Repr) && Contents() == []
    {
      while head.next != null
        invariant Linked() && Repr == old(Repr) && (size > 0 ==> head.next == spine[1])
        decreases size
      {
        var _, _ := Unlink();
      }
      tail := head;
    }

    /** Removes every slot up to and including `o`, and hands back the body of the
        slot at `o`, if there was one. */
    method DropUpTo(o: Ordinal) returns (hit: Option<T>)
      requires Valid() && Sorted(Contents())
      modifies Repr
      ensures Valid() && Repr == old(Repr)
      ensures Contents() == Slots.DropUpTo(old(Contents()), o)
      ensures var q, k := old(Contents()), Position(old(Contents()), o);
              hit == if Has(q, o) then Some(q[k].body) else None
    {
      hit := None;
      ghost var q, ends, done := Contents(), tail, 0;
      while head.next != null && Compare(head.next.ord, o) <= 0
        invariant Linked() && Repr == old(Repr) && (size > 0 ==> spine[|spine| - 1] == ends)
        invariant tail == ends && done <= |q| && Contents() == q[done..]
        invariant Slots.DropUpTo(q[done..], o) == Slots.DropUpTo(q, o)
        invariant forall i | 0 <= i < done :: !Less(o, q[i].ord)
        invariant hit == if done > 0 && Same(q[done - 1].ord, o) then Some(q[done - 1].body) else None
        decreases size
      {
        var s, d := Unlink();
        assert q[done..][1..] == q[done + 1..];
        done := done + 1;
        if Compare(s.ord, o) == 0 {
          hit := Some(s.body);
        }
      }
      if size == 0 {
        tail := head;
      }
      DropHits(q, o, done);
    }
  }

  // Of the leading slots up to `o`, only the last can be the one at `o`.
  lemma DropHits<T>(q: seq<Slot<T>>, o: Ordinal, done: nat)
    requires Sorted(q) && done <= |q| && (forall i | 0 <= i < done :: !Less(o, q[i].ord))
    requires done < |q| ==> Less(o, q[done].ord)
    ensures Has(q, o) <==> done > 0 && Same(q[done - 1].ord, o)
    ensures Has(q, o) ==> Position(q, o) == done - 1
  {
    if done > 0 && Same(q[done - 1].ord, o) {
      PositionUnique(q, o, done - 1);
    } else {
      PositionUnique(q, o, done);
    }
  }
}
