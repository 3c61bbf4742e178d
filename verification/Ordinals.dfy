/** Ordinals and sequence pairs: the two orders the channel lives by. */
module Ordinals {

  // An ordinal names one event of the Prime stream: event `idx` of the `tot`
  // events of ordered batch `num`.  Comparison ignores `tot`.
  datatype Ordinal = Ordinal(num: nat, idx: nat, tot: nat)

  // A client's sequence number under its incarnation.
  datatype SeqPair = SeqPair(inc: nat, num: nat)

  const ZERO := Ordinal(0, 0, 0)

  predicate Less(a: Ordinal, b: Ordinal) {
    a.num < b.num || (a.num == b.num && a.idx < b.idx)
  }

  predicate Same(a: Ordinal, b: Ordinal) {
    a.num == b.num && a.idx == b.idx
  }

  function Compare(o1: Ordinal, o2: Ordinal): (c: int)
    ensures c < 0 <==> Less(o1, o2)
    ensures c == 0 <==> Same(o1, o2)
    ensures c > 0 <==> Less(o2, o1)
  {
    if o1.num < o2.num then -1
    else if o1.num > o2.num then 1
    else if o1.idx < o2.idx then -1
    else if o1.idx > o2.idx then 1
    else 0
  }

  predicate Consec(o1: Ordinal, o2: Ordinal) {
    || (o1.num == o2.num && o2.idx == o1.idx + 1)
    || (o2.num == o1.num + 1 && o1.idx == o1.tot && o2.idx == 1)
  }

  predicate PairLess(p1: SeqPair, p2: SeqPair) {
    p1.inc < p2.inc || (p1.inc == p2.inc && p1.num < p2.num)
  }

  function PairCompare(p1: SeqPair, p2: SeqPair): (c: int)
    ensures c < 0 <==> PairLess(p1, p2)
    ensures c == 0 <==> p1 == p2
    ensures c > 0 <==> PairLess(p2, p1)
  {
    if p1.inc < p2.inc then -1
    else if p1.inc > p2.inc then 1
    else if p1.num < p2.num then -1
    else if p1.num > p2.num then 1
    else 0
  }

  predicate PairLessEq(p1: SeqPair, p2: SeqPair) {
    !PairLess(p2, p1)
  }

  // The ordinals Prime hands out: `tot` gives the number of events of each batch.
  predicate Proper(tot: nat -> nat, o: Ordinal) {
    1 <= o.num && 1 <= o.idx <= o.tot && o.tot == tot(o.num)
  }

  predicate ProperOrZero(tot: nat -> nat, o: Ordinal) {
    o == ZERO || Proper(tot, o)
  }

  /** Between an ordinal and the one consecutive to it there is no third, so an
      ordinal that skips over `mid` is never consecutive. */
  lemma ConsecIsAdjacent(tot: nat -> nat, a: Ordinal, mid: Ordinal, b: Ordinal)
    requires ProperOrZero(tot, a) && ProperOrZero(tot, mid) && Proper(tot, b)
    requires Less(a, mid) && Less(mid, b)
    ensures !Consec(a, b)
  {
  }

  // Two's-complement wrap-around of the 32-bit fields.
  const WRAP := 0x1_0000_0000

  // The test the source computes on unsigned 32-bit fields.
  predicate Consec32(o1: Ordinal, o2: Ordinal) {
    || (o1.num == o2.num && o2.idx == (o1.idx + 1) % WRAP)
    || (o2.num == (o1.num + 1) % WRAP && o1.idx == o1.tot && o2.idx == 1)
  }

  predicate Fits32(o: Ordinal) {
    o.num < WRAP && o.idx < WRAP && o.tot < WRAP
  }

  /** On 32-bit fields the source's test is `Consec` exactly while neither
      counter stands at its last value: at the last value some successor is
      accepted that lies behind. */
  lemma Consec32Exact(o1: Ordinal)
    requires Fits32(o1)
    ensures (forall o2 | Fits32(o2) :: Consec32(o1, o2) <==> Consec(o1, o2))
       <==> (o1.idx < WRAP - 1 && (o1.num < WRAP - 1 || o1.idx != o1.tot))
  {
    if o1.idx == WRAP - 1 {
      assert Fits32(Ordinal(o1.num, 0, 0)) && Consec32(o1, Ordinal(o1.num, 0, 0));
      assert !Consec(o1, Ordinal(o1.num, 0, 0));
    } else if o1.num == WRAP - 1 && o1.idx == o1.tot {
      assert Fits32(Ordinal(0, 1, 0)) && Consec32(o1, Ordinal(0, 1, 0));
      assert !Consec(o1, Ordinal(0, 1, 0));
    }
  }
}
