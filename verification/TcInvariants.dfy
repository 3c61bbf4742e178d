/** What every insertion and every delivery keeps of the TC queue, and that
    ordinals are consumed as a gap-free chain. */
module TcInvariants {
  import opened Ordinals
  import opened Packets
  import opened Slots
  import opened ItrcSpec

  // ---- One slot --------------------------------------------------------------

  // A final is backed by stored shares, all on its own ordinal, and verifies.
  predicate Backed(cfg: Config, b: TcBody, fin: TcFinal) {
    && VerifyThresh(cfg.f, fin)
    && forall i | i in fin.sig :: i in b.shares && b.shares[i].ord == fin.ord && b.shares[i].sig == fin.sig[i]
  }

  predicate TcSlotInv(cfg: Config, slot: TcSlot) {
    var b := slot.body;
    && b.count == |b.recvd|
    && (forall i | i in b.recvd :: cfg.IsReplica(i))
    && b.shares.Keys <= b.recvd
    && (forall i | i in b.shares :: Same(b.shares[i].ord, slot.ord))
    && (b.done ==> cfg.me in b.recvd)
    && (b.skip ==> b.done)
    && (!b.done ==> b.tcf == None && b.shares.Keys == b.recvd
                    && (cfg.me in b.recvd ==> b.count < cfg.ReqShares()))
    && (b.done && b.skip ==> b.tcf == None)
    && (b.done && !b.skip ==> b.tcf.Some? && Same(b.tcf.value.ord, slot.ord) && Backed(cfg, b, b.tcf.value))
  }

  lemma ConstructFinalBacked(cfg: Config, o: Ordinal, b: TcBody)
    ensures var r := ConstructFinal(cfg, o, b);
            r.Some? ==> r.value.ord == o && Backed(cfg, b, r.value)
  {
    MatchingStored(b, o, cfg.NumSm());
  }

  lemma RecordShareInv(cfg: Config, slot: TcSlot, sh: ShareMsg, sender: nat, skip: bool)
    requires TcSlotInv(cfg, slot) && cfg.IsReplica(sender) && Same(sh.ord, slot.ord)
    requires skip ==> sender == cfg.me
    ensures TcSlotInv(cfg, Slot(slot.ord, RecordShare(cfg, slot.body, sh, sender, skip)))
  {
    var b := slot.body;
    if !b.done && sender !in b.recvd {
      assert |b.recvd + {sender}| == |b.recvd| + 1;
      var b1 := b.(recvd := b.recvd + {sender}, count := b.count + 1);
      if !skip {
        var b2 := b1.(shares := b1.shares[sender := sh]);
        ConstructFinalBacked(cfg, sh.ord, b2);
      }
    }
  }

  // ---- The queue ---------------------------------------------------------------

  // `bound` is the highest Prime ordinal seen: the replica's own flag is set for
  // no later one.
  predicate TcInv(cfg: Config, applied: Ordinal, bound: Ordinal, q: seq<TcSlot>) {
    && Sorted(q) && AllAfter(q, applied)
    && (forall i | 0 <= i < |q| :: TcSlotInv(cfg, q[i]))
    && (forall i | 0 <= i < |q| && cfg.me in q[i].body.recvd :: !Less(bound, q[i].ord))
    && !Less(bound, applied)
  }

  lemma EnsureTcInv(cfg: Config, applied: Ordinal, bound: Ordinal, q: seq<TcSlot>, o: Ordinal)
    requires TcInv(cfg, applied, bound, q) && Less(applied, o)
    ensures TcInv(cfg, applied, bound, Ensure(q, o, BLANK_TC))
  {
    hide TcSlotInv;
    EnsureSorted(q, o, BLANK_TC);
    BlankTcInv(cfg, o);
  }

  lemma BlankTcInv(cfg: Config, o: Ordinal)
    ensures TcSlotInv(cfg, Slot(o, BLANK_TC))
  {
  }

  lemma SetTcInv(cfg: Config, applied: Ordinal, bound: Ordinal, q: seq<TcSlot>, k: nat, b: TcBody)
    requires TcInv(cfg, applied, bound, q) && k < |q| && TcSlotInv(cfg, Slot(q[k].ord, b))
    requires cfg.me in b.recvd ==> !Less(bound, q[k].ord)
    ensures TcInv(cfg, applied, bound, SetBody(q, k, b))
  {
    hide TcSlotInv;
  }

  lemma InsertTcInv(cfg: Config, applied: Ordinal, bound: Ordinal, q: seq<TcSlot>, sh: ShareMsg, sender: nat,
                    skip: bool)
    requires TcInv(cfg, applied, bound, q) && cfg.IsReplica(sender)
    requires skip ==> sender == cfg.me
    requires sender == cfg.me ==> !Less(bound, sh.ord)
    ensures TcInv(cfg, applied, bound, InsertTc(cfg, applied, q, sh, sender, skip))
  {
    hide TcSlotInv, Position, Ensure, RecordShare;
    if Less(applied, sh.ord) {
      var q1, k := Ensure(q, sh.ord, BLANK_TC), Position(q, sh.ord);
      EnsureTcInv(cfg, applied, bound, q, sh.ord);
      RecordShareInv(cfg, q1[k], sh, sender, skip);
      OwnFlag(cfg, q1[k].body, sh, sender, skip);
      SetTcInv(cfg, applied, bound, q1, k, RecordShare(cfg, q1[k].body, sh, sender, skip));
    }
  }

  lemma OwnFlag(cfg: Config, b: TcBody, sh: ShareMsg, sender: nat, skip: bool)
    ensures cfg.me in RecordShare(cfg, b, sh, sender, skip).recvd ==> cfg.me in b.recvd || sender == cfg.me
  {
  }

  // Dropping a leading part (what a completed transfer does) keeps the invariant.
  lemma DropTcInv(cfg: Config, applied: Ordinal, bound: Ordinal, q: seq<TcSlot>, o: Ordinal)
    requires TcInv(cfg, applied, bound, q) && Same(o, bound)
    ensures TcInv(cfg, o, bound, DropUpTo(q, o)) && AllAfter(DropUpTo(q, o), o)
  {
    hide TcSlotInv;
    DropUpToShape(q, o);
  }

  // ---- Consumption ---------------------------------------------------------------

  // Each consumed ordinal is consecutive to the one before it, unless a state
  // transfer jumped forward to it.
  predicate Link(prev: Ordinal, c: Consumed) {
    if c.Jumped? then Less(prev, c.ord) else Consec(prev, c.ord)
  }

  function Last(from: Ordinal, cs: seq<Consumed>): Ordinal {
    if cs == [] then from else cs[|cs| - 1].ord
  }

  predicate Chain(from: Ordinal, cs: seq<Consumed>) {
    forall i | 0 <= i < |cs| :: Link(Last(from, cs[..i]), cs[i])
  }

  lemma ChainAppend(from: Ordinal, cs: seq<Consumed>, ds: seq<Consumed>)
    requires Chain(from, cs) && Chain(Last(from, cs), ds)
    ensures Chain(from, cs + ds)
    ensures Last(from, cs + ds) == Last(Last(from, cs), ds)
  {
    var es := cs + ds;
    forall i | 0 <= i < |es| ensures Link(Last(from, es[..i]), es[i]) {
      if i < |cs| {
        assert es[..i] == cs[..i];
      } else {
        assert es[..i] == cs + ds[..i - |cs|];
        assert Last(from, es[..i]) == Last(Last(from, cs), ds[..i - |cs|]);
      }
    }
  }

  /** No ordinal is consumed twice, and never one behind an earlier one. */
  lemma {:induction false} ChainIncreases(from: Ordinal, cs: seq<Consumed>, i: nat, j: nat)
    requires Chain(from, cs) && i < j < |cs|
    ensures Less(from, cs[i].ord) && Less(cs[i].ord, cs[j].ord)
    decreases j
  {
    assert Link(Last(from, cs[..j]), cs[j]) && cs[..j][j - 1] == cs[j - 1];
    if i < j - 1 {
      ChainIncreases(from, cs, i, j - 1);
    }
    FirstAfter(from, cs, i);
  }

  lemma {:induction false} FirstAfter(from: Ordinal, cs: seq<Consumed>, i: nat)
    requires Chain(from, cs) && i < |cs|
    ensures Less(from, cs[i].ord)
  {
    assert Link(Last(from, cs[..i]), cs[i]);
    if i > 0 {
      FirstAfter(from, cs, i - 1);
    }
  }

  lemma {:induction false} ReadyDeliverInv(cfg: Config, applied: Ordinal, bound: Ordinal, q: seq<TcSlot>)
    requires TcInv(cfg, applied, bound, q)
    ensures var r := ReadyDeliver(cfg, applied, q);
            && TcInv(cfg, r.applied, bound, r.rest)
            && Chain(applied, r.consumed) && Last(applied, r.consumed) == r.applied
            && (r.ready ==> r.out.Some? && VerifyThresh(cfg.f, r.out.value) && Same(r.out.value.ord, r.applied))
            && (!r.ready ==> r.out.None? && !FrontReady(cfg, r.applied, r.rest))
    decreases |q|
  {
    if FrontReady(cfg, applied, q) {
      assert Sorted(q[1..]) && AllAfter(q[1..], q[0].ord);
      if q[0].body.skip {
        ReadyDeliverInv(cfg, q[0].ord, bound, q[1..]);
        var r := ReadyDeliver(cfg, q[0].ord, q[1..]);
        ChainAppend(applied, [Skipped(q[0].ord)], r.consumed);
      }
    }
  }

  predicate ConsumedOk(consumed: seq<Consumed>, applied: Ordinal, cc: bool) {
    && Chain(ZERO, consumed)
    && !Less(applied, Last(ZERO, consumed))
    && (cc ==> applied == Last(ZERO, consumed))
  }

  predicate ConsumedInv(s: State, cc: bool) {
    ConsumedOk(s.consumed, s.applied, cc)
  }

  predicate AllVerify(f: nat, fins: seq<TcFinal>) {
    forall i | 0 <= i < |fins| :: VerifyThresh(f, fins[i])
  }

  // Finals put on the external link all verify.
  predicate FinalsVerify(cfg: Config, s: State) {
    AllVerify(cfg.f, s.finals) && AllVerify(cfg.f, s.lost)
  }

  // What one pass of the delivery loop is known to keep.
  predicate DrainKeeps(cfg: Config, bound: Ordinal, s: State) {
    && TcInv(cfg, s.applied, bound, s.tcq)
    && ConsumedInv(s, true)
    && FinalsVerify(cfg, s)
  }

  // The state after one call of ReadyDeliver, before its final is sent.
  function AfterPass(cfg: Config, s: State): (r: State) {
    var d := ReadyDeliver(cfg, s.applied, s.tcq);
    s.(applied := d.applied, tcq := d.rest, consumed := s.consumed + d.consumed)
  }

  lemma PassInv(cfg: Config, bound: Ordinal, s: State)
    requires DrainKeeps(cfg, bound, s)
    ensures DrainKeeps(cfg, bound, AfterPass(cfg, s))
  {
    ReadyDeliverInv(cfg, s.applied, bound, s.tcq);
    ChainAppend(ZERO, s.consumed, ReadyDeliver(cfg, s.applied, s.tcq).consumed);
  }

  lemma SendInv(cfg: Config, bound: Ordinal, s: State, out: Option<TcFinal>)
    requires DrainKeeps(cfg, bound, s)
    requires out.Some? ==> VerifyThresh(cfg.f, out.value)
    ensures DrainKeeps(cfg, bound, SendFinal(s, out))
    ensures |SendFinal(s, out).lost| == |s.lost| + if out.Some? && s.credit == 0 then 1 else 0
  {
  }

  lemma {:induction false} DrainInv(cfg: Config, bound: Ordinal, s: State)
    requires DrainKeeps(cfg, bound, s)
    ensures DrainKeeps(cfg, bound, Drain(cfg, s))
    ensures |Drain(cfg, s).lost| == |s.lost| ==> !FrontReady(cfg, Drain(cfg, s).applied, Drain(cfg, s).tcq)
    ensures |Drain(cfg, s).lost| >= |s.lost|
    decreases |s.tcq|
  {
    PassInv(cfg, bound, s);
    ReadyDeliverInv(cfg, s.applied, bound, s.tcq);
    var r := ReadyDeliver(cfg, s.applied, s.tcq);
    if r.ready {
      var s2 := SendFinal(AfterPass(cfg, s), r.out);
      SendInv(cfg, bound, AfterPass(cfg, s), r.out);
      if s.credit > 0 {
        DrainInv(cfg, bound, s2);
      }
    }
  }

  lemma InsertAndDrainInv(cfg: Config, bound: Ordinal, s: State, sh: ShareMsg, sender: nat, skip: bool)
    requires DrainKeeps(cfg, bound, s) && cfg.IsReplica(sender)
    requires skip ==> sender == cfg.me
    requires sender == cfg.me ==> !Less(bound, sh.ord)
    ensures DrainKeeps(cfg, bound, InsertAndDrain(cfg, s, sh, sender, skip))
  {
    InsertTcInv(cfg, s.applied, bound, s.tcq, sh, sender, skip);
    DrainInv(cfg, bound, s.(tcq := InsertTc(cfg, s.applied, s.tcq, sh, sender, skip)));
  }

  /** An uninterrupted delivery loop stops only at a gap: on proper ordinals, no
      finished slot for the next ordinal is left in the queue. */
  lemma DrainStopsAtGap(cfg: Config, tot: nat -> nat, bound: Ordinal, s: State)
    requires DrainKeeps(cfg, bound, s)
    requires ProperOrZero(tot, Drain(cfg, s).applied)
    requires forall i | 0 <= i < |Drain(cfg, s).tcq| :: Proper(tot, Drain(cfg, s).tcq[i].ord)
    requires |Drain(cfg, s).lost| == |s.lost|
    ensures var r := Drain(cfg, s);
            forall i | 0 <= i < |r.tcq| && Consec(r.applied, r.tcq[i].ord) :: !r.tcq[i].body.done
  {
    DrainInv(cfg, bound, s);
    var r := Drain(cfg, s);
    forall i | 0 <= i < |r.tcq| && Consec(r.applied, r.tcq[i].ord) ensures !r.tcq[i].body.done {
      if i > 0 {
        ConsecIsAdjacent(tot, r.applied, r.tcq[0].ord, r.tcq[i].ord);
      }
    }
  }
}
