/** The pointer queue the grid search uses: `first` is where values enter,
    `last` where they leave. */
module Fifo {
  import opened Packets

  class Node {
    var val: nat
    var next: Node?

    constructor (val: nat)
      ensures this.val == val && next == null
    {
      this.val, this.next := val, null;
    }
  }

  class Queue {
    var first: Node?
    var last: Node?
    // From the oldest to the newest node.
    ghost var chain: seq<Node>
    ghost var Repr: set<object>

    ghost predicate Valid()
      reads this, Repr
    {
      && this in Repr && (forall i | 0 <= i < |chain| :: chain[i] in Repr)
      && (forall i, j | 0 <= i < j < |chain| :: chain[i] != chain[j])
      && (forall i | 0 <= i < |chain| - 1 :: chain[i].next == chain[i + 1])
      && (chain != [] ==> chain[|chain| - 1].next == null)
      && (if chain == [] then first == null && last == null
          else last == chain[0] && first == chain[|chain| - 1])
    }

    ghost function Contents(): (s: seq<nat>)
      reads this, Repr
      requires Valid()
      ensures |s| == |chain| && forall i | 0 <= i < |s| :: s[i] == chain[i].val
    {
      var ns := chain;
      seq(|ns|, i requires 0 <= i < |ns| reads ns => ns[i].val)
    }

    constructor ()
      ensures Valid() && Contents() == [] && fresh(Repr)
    {
      first, last, chain, Repr := null, null, [], {this};
    }

    method Enqueue(v: nat)
      requires Valid()
      modifies Repr
      ensures Valid() && fresh(Repr - old(Repr))
      ensures Contents() == old(Contents()) + [v]
    {
      hide Contents;
      var n := new Node(v);
      if first == null {
        last := n;
      } else {
        first.next := n;
      }
      first := n;
      chain, Repr := chain + [n], Repr + {n};
    }

    /** Nothing comes out of an empty queue (the source gives up there). */
    method Dequeue() returns (r: Option<nat>)
      requires Valid()
      modifies Repr
      ensures Valid() && Repr == old(Repr)
      ensures old(Contents()) == [] ==> r == None && Contents() == []
      ensures old(Contents()) != [] ==> r == Some(old(Contents())[0]) && Contents() == old(Contents())[1..]
    {
      if last == null {
        return None;
      }
      r := Some(last.val);
      last := last.next;
      if last == null {
        first := null;
      }
      chain := chain[1..];
    }

    method IsEmpty() returns (b: bool)
      requires Valid()
      ensures b == (Contents() == [])
    {
      b := first == null;
    }

    // queue_del
    method Delete()
      requires Valid()
      modifies Repr
      ensures Valid() && Repr == old(Repr) && Contents() == []
    {
      var empty := IsEmpty();
      while !empty
        invariant Valid() && Repr == old(Repr) && empty == (Contents() == [])
        decreases |Contents()|
      {
        var _ := Dequeue();
        empty := IsEmpty();
      }
    }
  }
}
