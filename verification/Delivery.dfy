/** What a replica has put on the external link, over whole runs: finals in
    order, one for each delivered ordinal, and nothing left that could go out. */
module Delivery {
  import opened Ordinals
  import opened Packets
  import opened Slots
  import opened ItrcSpec
  import opened TcInvariants
  import opened StInvariants
  import opened ReplicaInvariants
  import opened TransferInvariants

  // ---- The ledger --------------------------------------------------------------

  predicate OrdsIncrease(fins: seq<TcFinal>) {
    forall i, j | 0 <= i < j < |fins| :: Less(fins[i].ord, fins[j].ord)
  }

  // The ordinal was consumed by delivering a final.
  predicate DeliveredIn(consumed: seq<Consumed>, o: Ordinal) {
    exists k :: 0 <= k < |consumed| && consumed[k].Delivered? && Same(consumed[k].ord, o)
  }

  function Deliveries(consumed: seq<Consumed>): nat {
    if consumed == [] then 0
    else Deliveries(consumed[..|consumed| - 1]) + if consumed[|consumed| - 1].Delivered? then 1 else 0
  }

  predicate AllDelivered(fins: seq<TcFinal>, applied: Ordinal, consumed: seq<Consumed>) {
    forall i | 0 <= i < |fins| :: !Less(applied, fins[i].ord) && DeliveredIn(consumed, fins[i].ord)
  }

  predicate Apart(fins: seq<TcFinal>, others: seq<TcFinal>) {
    forall i, j | 0 <= i < |fins| && 0 <= j < |others| :: !Same(fins[i].ord, others[j].ord)
  }

  // Finals sent and finals lost, in order, one for each delivered ordinal.
  predicate LedgerOk(finals: seq<TcFinal>, lost: seq<TcFinal>, applied: Ordinal, consumed: seq<Consumed>) {
    && OrdsIncrease(finals) && OrdsIncrease(lost) && Apart(finals, lost)
    && AllDelivered(finals, applied, consumed) && AllDelivered(lost, applied, consumed)
    && |finals| + |lost| == Deliveries(consumed)
  }

  predicate Ledger(s: State) {
    LedgerOk(s.finals, s.lost, s.applied, s.consumed)
  }

  // Unless the link failed since n finals were lost, nothing could go out now.
  predicate Quiet(cfg: Config, n: nat, s: State) {
    n <= |s.lost| && (n == |s.lost| ==> !FrontReady(cfg, s.applied, s.tcq))
  }

  predicate InOrder(cfg: Config, n: nat, s: State) {
    Ledger(s) && Quiet(cfg, n, s)
  }

  lemma {:induction false} DeliveriesAppend(cs: seq<Consumed>, ds: seq<Consumed>)
    ensures Deliveries(cs + ds) == Deliveries(cs) + Deliveries(ds)
    decreases |ds|
  {
    if ds == [] {
      assert cs + ds == cs;
    } else {
      var init := ds[..|ds| - 1];
      DeliveriesAppend(cs, init);
      assert (cs + ds)[..|cs + ds| - 1] == cs + init;
    }
  }

  // Consuming more keeps what was delivered.
  lemma LedgerGrows(fins: seq<TcFinal>, applied: Ordinal, consumed: seq<Consumed>, applied': Ordinal, ds: seq<Consumed>)
    requires AllDelivered(fins, applied, consumed) && !Less(applied', applied)
    ensures AllDelivered(fins, applied', consumed + ds)
  {
    forall i | 0 <= i < |fins| ensures !Less(applied', fins[i].ord) && DeliveredIn(consumed + ds, fins[i].ord) {
      var k :| 0 <= k < |consumed| && consumed[k].Delivered? && Same(consumed[k].ord, fins[i].ord);
      assert (consumed + ds)[k] == consumed[k];
    }
  }

  // A pass that delivers nothing, and one that ends in a delivery.
  lemma LedgerSkips(s: State, applied': Ordinal, ds: seq<Consumed>)
    requires Ledger(s) && !Less(applied', s.applied) && Deliveries(ds) == 0
    ensures LedgerOk(s.finals, s.lost, applied', s.consumed + ds)
  {
    LedgerGrows(s.finals, s.applied, s.consumed, applied', ds);
    LedgerGrows(s.lost, s.applied, s.consumed, applied', ds);
    DeliveriesAppend(s.consumed, ds);
  }

  lemma LedgerDelivers(s: State, applied': Ordinal, ds: seq<Consumed>, fin: TcFinal)
    requires Ledger(s) && Less(s.applied, applied') && Deliveries(ds) == 1 && Same(fin.ord, applied')
    requires ds != [] && ds[|ds| - 1] == Delivered(applied')
    ensures LedgerOk(s.finals + [fin], s.lost, applied', s.consumed + ds)
    ensures LedgerOk(s.finals, s.lost + [fin], applied', s.consumed + ds)
  {
    hide Deliveries;
    var all := s.consumed + ds;
    assert all[|all| - 1] == Delivered(applied');
    LedgerGrows(s.finals, s.applied, s.consumed, applied', ds);
    LedgerGrows(s.lost, s.applied, s.consumed, applied', ds);
    DeliveriesAppend(s.consumed, ds);
  }

  // ---- The delivery loop ---------------------------------------------------------

  lemma {:induction false} ReadyLedger(cfg: Config, applied: Ordinal, bound: Ordinal, q: seq<TcSlot>)
    requires TcInv(cfg, applied, bound, q)
    ensures var r := ReadyDeliver(cfg, applied, q);
            && !Less(r.applied, applied)
            && Deliveries(r.consumed) == (if r.ready then 1 else 0)
            && (r.ready ==> Less(applied, r.applied) && r.consumed != []
                            && r.consumed[|r.consumed| - 1] == Delivered(r.applied))
    decreases |q|
  {
    hide TcSlotInv;
    if FrontReady(cfg, applied, q) && q[0].body.skip {
      assert TcInv(cfg, q[0].ord, bound, q[1..]);
      ReadyLedger(cfg, q[0].ord, bound, q[1..]);
      DeliveriesAppend([Skipped(q[0].ord)], ReadyDeliver(cfg, q[0].ord, q[1..]).consumed);
    }
  }

  lemma {:induction false} DrainLedger(cfg: Config, bound: Ordinal, s: State)
    requires DrainKeeps(cfg, bound, s) && Ledger(s)
    ensures Ledger(Drain(cfg, s))
    decreases |s.tcq|
  {
    hide LedgerOk, TcInv, ConsumedOk, AllVerify, ReadyDeliver;
    ReadyLedger(cfg, s.applied, bound, s.tcq);
    ReadyDeliverInv(cfg, s.applied, bound, s.tcq);
    PassInv(cfg, bound, s);
    var r := ReadyDeliver(cfg, s.applied, s.tcq);
    if r.ready {
      LedgerDelivers(s, r.applied, r.consumed, r.out.value);
      var s2 := SendFinal(AfterPass(cfg, s), r.out);
      SendInv(cfg, bound, AfterPass(cfg, s), r.out);
      if s.credit > 0 {
        DrainLedger(cfg, bound, s2);
      }
    } else {
      LedgerSkips(s, r.applied, r.consumed);
    }
  }

  lemma InsertInOrder(cfg: Config, n: nat, s: State, at: Ordinal, sh: ShareMsg, sender: nat, skip: bool)
    requires ChannelInv(cfg, s, at) && cfg.cc && cfg.IsReplica(sender) && Ledger(s) && n <= |s.lost|
    requires skip ==> sender == cfg.me
    requires sender == cfg.me ==> !Less(at, sh.ord)
    ensures InOrder(cfg, n, InsertAndDrain(cfg, s, sh, sender, skip))
  {
    hide TcInv, LedgerOk, ConsumedOk, AllVerify, SignedOk, FrontReady, InsertTc, Drain;
    InsertTcInv(cfg, s.applied, at, s.tcq, sh, sender, skip);
    var s1 := s.(tcq := InsertTc(cfg, s.applied, s.tcq, sh, sender, skip));
    DrainLedger(cfg, at, s1);
    DrainInv(cfg, at, s1);
  }

  // ---- One Prime ordinal ---------------------------------------------------------

  lemma SkipPartInOrder(cfg: Config, n: nat, s: State, o: Ordinal, u: Update)
    requires InvAt(cfg, s, o) && Ledger(s) && n <= |s.lost|
    requires Quiet(cfg, n, s) || (cfg.cc && EmptySlot(cfg, s, u))
    ensures InOrder(cfg, n, SkipPart(cfg, s, o, u))
  {
    hide ChannelInv, StInv, LedgerOk, FrontReady, InsertAndDrain;
    if EmptySlot(cfg, s, u) && cfg.cc {
      InsertInOrder(cfg, n, s, o, ShareMsg(o, NoPayload, Junk), cfg.me, true);
    }
  }

  // Beyond the ordinal a transfer completed at, the replica has no flag of its own.
  lemma ApplyInOrder(cfg: Config, n: nat, s: State, o: Ordinal, at: Ordinal)
    requires Ledger(s) && n <= |s.lost| && Same(o, at) && Less(s.applied, o)
    requires InvAt(cfg, Apply(cfg, s, o), at) && Transferred(cfg, Apply(cfg, s, o), o)
    ensures InOrder(cfg, n, Apply(cfg, s, o))
  {
    hide StInv, LedgerOk, ConsumedOk, AllVerify, SignedOk, AgreedState, DropUpTo, TcSlotInv;
    assert Deliveries([Jumped(o)]) == 0;
    LedgerSkips(s, o, [Jumped(o)]);
  }

  lemma TransferPartInOrder(cfg: Config, n: nat, s: State, o: Ordinal)
    requires InvAt(cfg, s, o) && !s.collecting && !s.halted && Less(s.recvd, o) && InOrder(cfg, n, s)
    ensures InOrder(cfg, n, TransferPart(cfg, s, o))
  {
    hide InvAt, TransferPart, Ledger, Quiet;
    if Consec(s.recvd, o) {
      UnneededInOrder(cfg, n, s, o);
    } else {
      NeededInOrder(cfg, n, s, o);
    }
  }

  lemma UnneededInOrder(cfg: Config, n: nat, s: State, o: Ordinal)
    requires InvAt(cfg, s, o) && Consec(s.recvd, o) && InOrder(cfg, n, s)
    ensures InOrder(cfg, n, TransferPart(cfg, s, o))
  {
    hide StInv, LedgerOk, TcSlotInv, ConsumedOk, AllVerify, SignedOk, DropUpTo;
    if !cfg.cc {
      LedgerSkips(s, o, []);
      assert s.consumed + [] == s.consumed;
    }
  }

  lemma NeededInOrder(cfg: Config, n: nat, s: State, o: Ordinal)
    requires InvAt(cfg, s, o) && !s.collecting && !s.halted && !Consec(s.recvd, o) && InOrder(cfg, n, s)
    ensures InOrder(cfg, n, TransferPart(cfg, s, o))
  {
    hide ChannelInv, StInv, StInvMid, Complete, InsertSt, Apply, LedgerOk, FrontReady;
    StCollects(cfg, s.stq, o);
    InsertStInv(cfg, s.recvd, s.applied, s.stq, true, o, SignalState(o), cfg.me);
    var (q, complete) := InsertSt(cfg, s.recvd, s.applied, s.stq, SignalState(o), cfg.me);
    SlotsApart(cfg, s, true, q, o);
    if complete {
      var s1 := s.(collecting := true, stq := q);
      ApplyInv(cfg, s1, o, o);
      ApplyInOrder(cfg, n, s1, o, o);
    }
  }

  lemma TakeUpInOrder(cfg: Config, n: nat, s: State, o: Ordinal, u: Update)
    requires Inv(cfg, s) && !s.halted && !s.collecting && Less(s.recvd, o) && Ledger(s) && n <= |s.lost|
    requires Quiet(cfg, n, s) || (cfg.cc && EmptySlot(cfg, s, u))
    ensures InOrder(cfg, n, TakeUp(cfg, s, o, u))
  {
    hide InvAt, InOrder, Ledger, Quiet, TransferPart, EmptySlot;
    AdvanceInv(cfg, s, s.recvd, o);
    SkipPartInv(cfg, s, o, u);
    SkipPartInOrder(cfg, n, s, o, u);
    if TransferForMe(cfg, u) {
      TransferPartInOrder(cfg, n, SkipPart(cfg, s, o, u), o);
    }
  }

  // The ordinal gets an empty slot, after which the source drains.
  predicate TakesEmptySlot(cfg: Config, s: State, m: PrimeMsg) {
    cfg.cc && !s.collecting && Admissible(cfg, s, m.ord, m.update) && EmptySlot(cfg, s, m.update)
  }

  lemma ProcessPrimeInOrder(cfg: Config, n: nat, s: State, m: PrimeMsg)
    requires Inv(cfg, s) && !s.halted && Less(s.recvd, m.ord) && Ledger(s) && n <= |s.lost|
    requires Quiet(cfg, n, s) || TakesEmptySlot(cfg, s, m)
    ensures InOrder(cfg, n, ProcessPrime(cfg, s, m))
  {
    hide Inv, LedgerOk, FrontReady, TakeUp, EmptySlot, ValidFromPrime;
    if !s.collecting && Admissible(cfg, s, m.ord, m.update) {
      TakeUpInOrder(cfg, n, s, m.ord, m.update);
    }
  }

  lemma {:induction false} ReplayInOrder(cfg: Config, n: nat, s: State)
    requires Inv(cfg, s) && !s.halted && InOrder(cfg, n, s)
    ensures InOrder(cfg, n, Replay(cfg, s))
    decreases |s.pending|
  {
    hide LedgerOk, FrontReady, ChannelInv, StInv, ProcessPrime, TakesEmptySlot;
    if s.pending != [] && !s.collecting {
      var m := s.pending[0];
      if Less(s.recvd, m.ord) {
        ProcessPrimeInv(cfg, s, m);
        ProcessPrimeInOrder(cfg, n, s, m);
      }
      var s1 := if Less(s.recvd, m.ord) then ProcessPrime(cfg, s, m) else s;
      ShorterInv(cfg, s1);
      ReplayInOrder(cfg, n, s1.(pending := s1.pending[1..]));
    }
  }

  lemma ShorterInv(cfg: Config, s: State)
    requires Inv(cfg, s) && s.pending != []
    ensures Inv(cfg, s.(pending := s.pending[1..]))
  {
  }

  lemma FinishInOrder(cfg: Config, n: nat, s: State)
    requires Inv(cfg, s) && !s.halted && InOrder(cfg, n, s)
    ensures InOrder(cfg, n, Finish(cfg, s))
  {
    hide LedgerOk, FrontReady, TcInv, StInv;
    if s.completed && !s.collecting {
      ReplayInOrder(cfg, n, s.(completed := false));
    }
  }

  // ---- Events --------------------------------------------------------------------

  // The events after which the source runs its delivery loop.
  predicate Drains(cfg: Config, s: State, e: Event) {
    match e
    case PrimeDelivery(m) => m.update.SystemReset? || (Less(s.recvd, m.ord) && TakesEmptySlot(cfg, s, m))
    case MasterReply(r) => cfg.cc && s.ordq != [] && r.Scada?
    case ShareArrival(_, _) => cfg.cc
    case _ => false
  }

  predicate IsReset(e: Event) {
    e.PrimeDelivery? && e.m.update.SystemReset?
  }

  lemma OnPrimeInOrder(cfg: Config, n: nat, s: State, m: PrimeMsg)
    requires Inv(cfg, s) && !s.halted && Ledger(s) && n <= |s.lost| && !m.update.SystemReset?
    requires Quiet(cfg, n, s) || Drains(cfg, s, PrimeDelivery(m))
    ensures InOrder(cfg, n, OnPrime(cfg, s, m))
  {
    hide InvAt, LedgerOk, FrontReady, ProcessPrime, Finish, EmptySlot;
    var s1 := NoteFirst(s, m.ord);
    NoteFirstInv(cfg, s, m.ord);
    assert EmptySlot(cfg, s1, m.update) == EmptySlot(cfg, s, m.update) by { FirstApart(cfg, s, m); }
    if Less(s1.recvd, m.ord) {
      ProcessPrimeInv(cfg, s1, m);
      ProcessPrimeInOrder(cfg, n, s1, m);
      FinishInOrder(cfg, n, ProcessPrime(cfg, s1, m));
    }
  }

  lemma FirstApart(cfg: Config, s: State, m: PrimeMsg)
    ensures EmptySlot(cfg, NoteFirst(s, m.ord), m.update) == EmptySlot(cfg, s, m.update)
  {
  }

  lemma OnMasterInOrder(cfg: Config, n: nat, s: State, reply: SmReply)
    requires Inv(cfg, s) && !s.halted && Ledger(s) && n <= |s.lost|
    requires Quiet(cfg, n, s) || Drains(cfg, s, MasterReply(reply))
    ensures InOrder(cfg, n, OnMaster(cfg, s, reply))
  {
    hide LedgerOk, FrontReady, TcInv, StInv, ConsumedOk, AllVerify, InsertAndDrain;
    if s.ordq != [] && reply.Scada? && cfg.cc {
      var o, p := s.ordq[0], reply.payload;
      var sh := ShareMsg(o, p, Genuine(cfg.me, o, p));
      var s2 := s.(ordq := s.ordq[1..], shares := s.shares + [sh]);
      assert ChannelInv(cfg, s2, s.recvd);
      InsertInOrder(cfg, n, s2, s.recvd, sh, cfg.me, false);
    }
  }

  lemma OnStateInOrder(cfg: Config, n: nat, s: State, sender: nat, st: StateXfer)
    requires Inv(cfg, s) && !s.halted && InOrder(cfg, n, s) && cfg.IsReplica(sender) && sender != cfg.me
    ensures InOrder(cfg, n, OnState(cfg, s, sender, st))
  {
    hide ChannelInv, StInv, StInvMid, Complete, Apply, Finish, InsertSt, LedgerOk, FrontReady;
    InsertStInv(cfg, s.recvd, s.applied, s.stq, s.collecting, s.recvd, st, sender);
    var (q, complete) := InsertSt(cfg, s.recvd, s.applied, s.stq, st, sender);
    var s1 := s.(stq := q);
    SlotsApart(cfg, s, s.collecting, q, s.recvd);
    assert s1 == s.(collecting := s.collecting, stq := q);
    if complete {
      ApplyInv(cfg, s1, st.ord, s.recvd);
      ApplyInOrder(cfg, n, s1, st.ord, s.recvd);
      FinishInOrder(cfg, n, Apply(cfg, s1, st.ord));
    } else {
      FinishInOrder(cfg, n, s1);
    }
  }

  lemma StepInOrder(cfg: Config, n: nat, s: State, e: Event)
    requires Inv(cfg, s) && ProperEvent(cfg, e) && !s.halted && !IsReset(e) && Ledger(s) && n <= |s.lost|
    requires Quiet(cfg, n, s) || Drains(cfg, s, e)
    ensures InOrder(cfg, n, Step(cfg, s, e))
  {
    hide LedgerOk, FrontReady, InvAt, TakesEmptySlot, OnPrime, OnMaster, OnState;
    match e
    case PrimeDelivery(m) => OnPrimeInOrder(cfg, n, s, m);
    case MasterReply(r) => OnMasterInOrder(cfg, n, s, r);
    case ShareArrival(sender, sh) => OnShareInOrder(cfg, n, s, sender, sh);
    case StateArrival(sender, st) => OnStateInOrder(cfg, n, s, sender, st);
    case LinkCredit(_) =>
  }

  lemma OnShareInOrder(cfg: Config, n: nat, s: State, sender: nat, sh: ShareMsg)
    requires Inv(cfg, s) && Ledger(s) && n <= |s.lost| && cfg.IsReplica(sender) && sender != cfg.me
    requires Quiet(cfg, n, s) || cfg.cc
    ensures InOrder(cfg, n, OnShare(cfg, s, sender, sh))
  {
    hide ChannelInv, StInv, LedgerOk, FrontReady, InsertAndDrain;
    if cfg.cc {
      InsertInOrder(cfg, n, s, s.recvd, sh, sender, false);
    }
  }

  lemma ResetInOrder(s: State, cfg: Config)
    ensures InOrder(cfg, 0, Reset(s))
  {
  }

  lemma {:induction false} RunInOrder(cfg: Config, es: seq<Event>)
    requires cfg.Valid() && forall i | 0 <= i < |es| :: ProperEvent(cfg, es[i])
    ensures InOrder(cfg, 0, Run(cfg, es))
    decreases |es|
  {
    hide InvAt, LedgerOk, FrontReady, OnPrime, OnMaster, OnShare, OnState;
    if es == [] {
      StartInOrder(cfg);
    } else {
      var init, e := es[..|es| - 1], es[|es| - 1];
      var s := Run(cfg, init);
      RunInOrder(cfg, init);
      RunInv(cfg, init);
      if !s.halted {
        if IsReset(e) {
          ResetInOrder(s, cfg);
          ResetStep(cfg, s, e);
        } else {
          StepInOrder(cfg, 0, s, e);
        }
      }
    }
  }

  lemma StartInOrder(cfg: Config)
    ensures InOrder(cfg, 0, Initial())
  {
  }

  lemma ResetStep(cfg: Config, s: State, e: Event)
    requires IsReset(e) && !s.halted
    ensures Step(cfg, s, e) == if e.m.ord.num != 0 then s.(halted := true) else Reset(s)
  {
  }

  // ---- Theorems ----------------------------------------------------------------------

  /** In every run, finals go out in strictly increasing order; each ordinal
      consumed by a delivery gives exactly one final, which is either sent or lost
      to a broken link, and nothing else gives one. */
  lemma FinalsMatchLedger(cfg: Config, es: seq<Event>)
    requires cfg.Valid() && forall i | 0 <= i < |es| :: ProperEvent(cfg, es[i])
    ensures var s := Run(cfg, es);
            && (forall i, j | 0 <= i < j < |s.finals| :: Less(s.finals[i].ord, s.finals[j].ord))
            && (forall i, j | 0 <= i < j < |s.lost| :: Less(s.lost[i].ord, s.lost[j].ord))
            && (forall i, j | 0 <= i < |s.finals| && 0 <= j < |s.lost| :: !Same(s.finals[i].ord, s.lost[j].ord))
            && (forall fin | fin in s.finals || fin in s.lost ::
                  !Less(s.applied, fin.ord) && DeliveredIn(s.consumed, fin.ord))
            && |s.finals| + |s.lost| == Deliveries(s.consumed)
  {
    RunInOrder(cfg, es);
  }

  // Nothing in the queue is finished and next in line.
  predicate NothingNext(s: State) {
    forall i | 0 <= i < |s.tcq| && Consec(s.applied, s.tcq[i].ord) :: !s.tcq[i].body.done
  }

  // On proper ordinals only the front can be next in line.
  lemma FrontIsNext(cfg: Config, tot: nat -> nat, s: State)
    requires Inv(cfg, s) && TransferInv(cfg, tot, s)
    ensures FrontReady(cfg, s.applied, s.tcq) <==> !NothingNext(s)
  {
    hide StInv, ConsumedOk, AllVerify, SignedOk;
    if !NothingNext(s) {
      var i :| 0 <= i < |s.tcq| && Consec(s.applied, s.tcq[i].ord) && s.tcq[i].body.done;
      assert TcSlotInv(cfg, s.tcq[i]);
      if i > 0 {
        ConsecIsAdjacent(tot, s.applied, s.tcq[0].ord, s.tcq[i].ord);
      }
    }
  }

  /** The delivery loop leaves nothing behind.  After every event of every run,
      unless the external link failed during it: no finished slot is next in line
      if the event makes the source deliver, or if none was before it. */
  lemma DrainedAfterEvent(cfg: Config, tot: nat -> nat, es: seq<Event>, e: Event)
    requires cfg.Valid() && ProperEvent(cfg, e) && ProperTotals(tot, e)
    requires forall i | 0 <= i < |es| :: ProperEvent(cfg, es[i]) && ProperTotals(tot, es[i])
    requires var s := Run(cfg, es); !s.halted && |Step(cfg, s, e).lost| <= |s.lost|
    ensures var s := Run(cfg, es);
            Drains(cfg, s, e) || NothingNext(s) ==> NothingNext(Step(cfg, s, e)) || Step(cfg, s, e).halted
  {
    hide InvAt, TransferInv, LedgerOk, NothingNext, FrontReady, Drains, Step;
    var s := Run(cfg, es);
    RunInOrder(cfg, es);
    RunInv(cfg, es);
    RunTransfer(cfg, tot, es);
    StepInv(cfg, s, e);
    StepTransfer(cfg, tot, s, e);
    FrontIsNext(cfg, tot, s);
    FrontIsNext(cfg, tot, Step(cfg, s, e));
    if IsReset(e) {
      ResetStep(cfg, s, e);
      ResetInOrder(s, cfg);
    } else if Drains(cfg, s, e) || NothingNext(s) {
      StepInOrder(cfg, |s.lost|, s, e);
    }
  }

  /** So in a run that lost no final, nothing finished is ever next in line. */
  lemma NothingHeldBack(cfg: Config, tot: nat -> nat, es: seq<Event>)
    requires cfg.Valid()
    requires forall i | 0 <= i < |es| :: ProperEvent(cfg, es[i]) && ProperTotals(tot, es[i])
    ensures Run(cfg, es).lost == [] ==> NothingNext(Run(cfg, es))
  {
    hide InvAt, TransferInv, LedgerOk, NothingNext, FrontReady;
    RunInOrder(cfg, es);
    RunInv(cfg, es);
    RunTransfer(cfg, tot, es);
    FrontIsNext(cfg, tot, Run(cfg, es));
  }
}
