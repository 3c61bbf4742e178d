/** Queues of slots ordered by ordinal: the value both the TC queue and the ST
    queue of a replica stand for. */
module Slots {
  import opened Ordinals

  datatype Slot<T> = Slot(ord: Ordinal, body: T)

  predicate Sorted<T>(q: seq<Slot<T>>) {
    forall i, j | 0 <= i < j < |q| :: Less(q[i].ord, q[j].ord)
  }

  predicate AllAfter<T>(q: seq<Slot<T>>, o: Ordinal) {
    forall i | 0 <= i < |q| :: Less(o, q[i].ord)
  }

  // Where ordinal `o` is, or belongs.
  function Position<T>(q: seq<Slot<T>>, o: Ordinal): (k: nat)
    ensures k <= |q|
    ensures forall i | 0 <= i < k :: Less(q[i].ord, o)
    ensures k < |q| ==> !Less(q[k].ord, o)
  {
    if q == [] || !Less(q[0].ord, o) then 0 else 1 + Position(q[1..], o)
  }

  predicate Has<T>(q: seq<Slot<T>>, o: Ordinal) {
    var k := Position(q, o);
    k < |q| && Same(q[k].ord, o)
  }

  // The queue with a slot for `o`: an existing one, or a fresh one in its place.
  function Ensure<T>(q: seq<Slot<T>>, o: Ordinal, blank: T): (r: seq<Slot<T>>)
    ensures var k := Position(q, o); k < |r| && Same(r[k].ord, o)
  {
    var k := Position(q, o);
    if Has(q, o) then q else q[..k] + [Slot(o, blank)] + q[k..]
  }

  // The queue without its leading slots up to and including `o`.
  function DropUpTo<T>(q: seq<Slot<T>>, o: Ordinal): seq<Slot<T>> {
    if q == [] || Less(o, q[0].ord) then q else DropUpTo(q[1..], o)
  }

  function SetBody<T>(q: seq<Slot<T>>, k: nat, b: T): (r: seq<Slot<T>>)
    requires k < |q|
    ensures |r| == |q|
  {
    q[k := Slot(q[k].ord, b)]
  }

  // ---- Facts -------------------------------------------------------------

  lemma PositionUnique<T>(q: seq<Slot<T>>, o: Ordinal, k: nat)
    requires k <= |q|
    requires forall i | 0 <= i < k :: Less(q[i].ord, o)
    requires k < |q| ==> !Less(q[k].ord, o)
    ensures Position(q, o) == k
  {
  }

  lemma {:induction false} EnsureSorted<T>(q: seq<Slot<T>>, o: Ordinal, blank: T)
    requires Sorted(q)
    ensures Sorted(Ensure(q, o, blank))
    ensures var r, k := Ensure(q, o, blank), Position(q, o);
            && (Has(q, o) ==> r == q)
            && (!Has(q, o) ==> |r| == |q| + 1 && r[k] == Slot(o, blank)
                               && (forall i | 0 <= i < k :: r[i] == q[i])
                               && (forall i | k < i < |r| :: r[i] == q[i - 1]))
  {
    var k := Position(q, o);
    if k < |q| && !Has(q, o) {
      assert Less(o, q[k].ord);
    }
  }

  lemma DropUpToShape<T>(q: seq<Slot<T>>, o: Ordinal)
    requires Sorted(q)
    ensures var r := DropUpTo(q, o);
            && |r| <= |q| && r == q[|q| - |r|..]
            && AllAfter(r, o) && Sorted(r)
            && (forall i | 0 <= i < |q| - |r| :: !Less(o, q[i].ord))
  {
    if q != [] && !Less(o, q[0].ord) {
      DropUpToShape(q[1..], o);
      var r := DropUpTo(q[1..], o);
      assert q[1..][|q[1..]| - |r|..] == q[|q| - |r|..];
      forall i | 0 <= i < |q| - |r| ensures !Less(o, q[i].ord) {
        if i > 0 {
          assert q[i] == q[1..][i - 1];
        }
      }
    }
  }
}
