/** A needed state transfer is never lost, when the event total in every message
    is the one of its batch. */
module TransferInvariants {
  import opened Ordinals
  import opened Packets
  import opened Slots
  import opened ItrcSpec
  import opened TcInvariants
  import opened StInvariants
  import opened ReplicaInvariants

  // The event totals in this event are those of Prime's batches.
  predicate ProperTotals(tot: nat -> nat, e: Event) {
    match e
    case PrimeDelivery(m) => m.update.SystemReset? || Proper(tot, m.ord)
    case ShareArrival(_, sh) => Proper(tot, sh.ord)
    case StateArrival(_, st) => Proper(tot, st.ord)
    case _ => true
  }

  predicate Totals(tot: nat -> nat, s: State, at: Ordinal) {
    && ProperOrZero(tot, at) && ProperOrZero(tot, s.applied)
    && SlotTotals(tot, s.tcq) && QueueTotals(tot, s.ordq) && BufferTotals(tot, s.pending)
  }

  predicate SlotTotals(tot: nat -> nat, q: seq<TcSlot>) {
    forall i | 0 <= i < |q| :: Proper(tot, q[i].ord)
  }

  predicate QueueTotals(tot: nat -> nat, os: seq<Ordinal>) {
    forall i | 0 <= i < |os| :: Proper(tot, os[i])
  }

  predicate BufferTotals(tot: nat -> nat, ms: seq<PrimeMsg>) {
    forall i | 0 <= i < |ms| :: Proper(tot, ms[i].ord)
  }

  // Delivery cannot reach the ordinal a transfer waits at.
  predicate Blocked(cfg: Config, s: State, at: Ordinal) {
    && Less(s.applied, at) && !Consec(s.applied, at)
    && OwnSlotsBlocked(cfg, s.tcq, at) && QueueBlocked(s.ordq, at)
  }

  predicate OwnSlotsBlocked(cfg: Config, q: seq<TcSlot>, at: Ordinal) {
    forall i | 0 <= i < |q| && cfg.me in q[i].body.recvd :: !Consec(q[i].ord, at)
  }

  predicate QueueBlocked(os: seq<Ordinal>, at: Ordinal) {
    forall i | 0 <= i < |os| :: !Consec(os[i], at)
  }

  predicate SignaledAt(q: seq<StSlot>, o: Ordinal) {
    Has(q, o) && q[Position(q, o)].body.signaled
  }

  predicate TransferAt(cfg: Config, tot: nat -> nat, s: State, at: Ordinal) {
    && Totals(tot, s, at)
    && (s.collecting ==> SignaledAt(s.stq, at) && Blocked(cfg, s, at))
  }

  predicate TransferInv(cfg: Config, tot: nat -> nat, s: State) {
    TransferAt(cfg, tot, s, s.recvd)
  }

  // ---- Delivery stays blocked ---------------------------------------------------

  lemma {:induction false} ReadyBlocked(cfg: Config, tot: nat -> nat, s: State, at: Ordinal)
    requires TcInv(cfg, s.applied, at, s.tcq) && Totals(tot, s, at)
    ensures var d := ReadyDeliver(cfg, s.applied, s.tcq);
            && Totals(tot, s.(applied := d.applied, tcq := d.rest), at)
            && (Blocked(cfg, s, at) ==> Blocked(cfg, s.(applied := d.applied, tcq := d.rest), at))
    decreases |s.tcq|
  {
    hide TcSlotInv, BufferTotals, QueueTotals;
    if FrontReady(cfg, s.applied, s.tcq) {
      var s1 := s.(applied := s.tcq[0].ord, tcq := s.tcq[1..]);
      assert Totals(tot, s1, at);
      assert Blocked(cfg, s, at) ==> Blocked(cfg, s1, at);
      if s.tcq[0].body.skip {
        assert TcInv(cfg, s1.applied, at, s1.tcq);
        ReadyBlocked(cfg, tot, s1, at);
      }
    }
  }

  lemma {:induction false} DrainBlocked(cfg: Config, tot: nat -> nat, s: State, at: Ordinal)
    requires DrainKeeps(cfg, at, s) && Totals(tot, s, at)
    ensures Totals(tot, Drain(cfg, s), at)
    ensures Blocked(cfg, s, at) ==> Blocked(cfg, Drain(cfg, s), at)
    decreases |s.tcq|
  {
    ReadyBlocked(cfg, tot, s, at);
    PassInv(cfg, at, s);
    ReadyDeliverInv(cfg, s.applied, at, s.tcq);
    var r := ReadyDeliver(cfg, s.applied, s.tcq);
    if r.ready {
      var s2 := SendFinal(AfterPass(cfg, s), r.out);
      SendInv(cfg, at, AfterPass(cfg, s), r.out);
      assert Totals(tot, s2, at) && (Blocked(cfg, s, at) ==> Blocked(cfg, s2, at));
      if s.credit > 0 {
        DrainBlocked(cfg, tot, s2, at);
      }
    }
  }

  // The queue right after an insertion, before delivery.
  lemma InsertTcBlocked(cfg: Config, tot: nat -> nat, s: State, at: Ordinal, sh: ShareMsg, sender: nat, skip: bool)
    requires Sorted(s.tcq) && Totals(tot, s, at) && Proper(tot, sh.ord)
    ensures var s1 := s.(tcq := InsertTc(cfg, s.applied, s.tcq, sh, sender, skip));
            && Totals(tot, s1, at)
            && (Blocked(cfg, s, at) && (sender == cfg.me ==> !Consec(sh.ord, at)) ==> Blocked(cfg, s1, at))
  {
    if Less(s.applied, sh.ord) {
      EnsureSorted(s.tcq, sh.ord, BLANK_TC);
      var q1, k := Ensure(s.tcq, sh.ord, BLANK_TC), Position(s.tcq, sh.ord);
      assert forall i | 0 <= i < |q1| :: Proper(tot, q1[i].ord);
      assert q1[k].ord == sh.ord;
      OwnFlag(cfg, q1[k].body, sh, sender, skip);
    }
  }

  lemma InsertBlocked(cfg: Config, tot: nat -> nat, s: State, at: Ordinal, sh: ShareMsg, sender: nat, skip: bool)
    requires ChannelInv(cfg, s, at) && cfg.cc && cfg.IsReplica(sender) && Totals(tot, s, at) && Proper(tot, sh.ord)
    requires skip ==> sender == cfg.me
    requires sender == cfg.me ==> !Less(at, sh.ord)
    ensures Totals(tot, InsertAndDrain(cfg, s, sh, sender, skip), at)
    ensures Blocked(cfg, s, at) && (sender == cfg.me ==> !Consec(sh.ord, at)) ==>
              Blocked(cfg, InsertAndDrain(cfg, s, sh, sender, skip), at)
  {
    InsertTcInv(cfg, s.applied, at, s.tcq, sh, sender, skip);
    InsertTcBlocked(cfg, tot, s, at, sh, sender, skip);
    DrainBlocked(cfg, tot, s.(tcq := InsertTc(cfg, s.applied, s.tcq, sh, sender, skip)), at);
  }

  // When a transfer is signaled across a gap, nothing the replica holds leads up to it.
  lemma GapBlocks(cfg: Config, tot: nat -> nat, s: State, o: Ordinal)
    requires ChannelInv(cfg, s, s.recvd) && Totals(tot, s, s.recvd)
    requires Less(s.recvd, o) && Proper(tot, o) && !Consec(s.recvd, o)
    ensures Blocked(cfg, s, o)
  {
    Behind(tot, s.applied, s.recvd, o);
    forall i | 0 <= i < |s.tcq| && cfg.me in s.tcq[i].body.recvd ensures !Consec(s.tcq[i].ord, o) {
      Behind(tot, s.tcq[i].ord, s.recvd, o);
    }
    forall i | 0 <= i < |s.ordq| ensures !Consec(s.ordq[i], o) {
      Behind(tot, s.ordq[i], s.recvd, o);
    }
  }

  lemma Behind(tot: nat -> nat, x: Ordinal, r: Ordinal, o: Ordinal)
    requires ProperOrZero(tot, x) && ProperOrZero(tot, r) && Proper(tot, o)
    requires !Less(r, x) && Less(r, o) && !Consec(r, o)
    ensures Less(x, o) && !Consec(x, o)
  {
    if Less(x, r) {
      ConsecIsAdjacent(tot, x, r, o);
    }
  }

  // ---- Events -------------------------------------------------------------------

  lemma SkipPartTransfer(cfg: Config, tot: nat -> nat, s: State, o: Ordinal, u: Update)
    requires InvAt(cfg, s, o) && Totals(tot, s, o) && Proper(tot, o)
    ensures Totals(tot, SkipPart(cfg, s, o, u), o)
    ensures Blocked(cfg, s, o) ==> Blocked(cfg, SkipPart(cfg, s, o, u), o)
  {
    if EmptySlot(cfg, s, u) && cfg.cc {
      InsertBlocked(cfg, tot, s, o, ShareMsg(o, NoPayload, Junk), cfg.me, true);
    }
  }

  lemma {:induction false} DropTotals(tot: nat -> nat, q: seq<TcSlot>, o: Ordinal)
    requires SlotTotals(tot, q)
    ensures SlotTotals(tot, DropUpTo(q, o))
  {
    if q != [] && !Less(o, q[0].ord) {
      DropTotals(tot, q[1..], o);
    }
  }

  lemma TransferPartTransfer(cfg: Config, tot: nat -> nat, s: State, o: Ordinal)
    requires InvAt(cfg, s, o) && !s.collecting && !s.halted && Less(s.recvd, o)
    requires Totals(tot, s, o) && Proper(tot, o)
    requires !Consec(s.recvd, o) ==> Blocked(cfg, s, o)
    ensures TransferAt(cfg, tot, TransferPart(cfg, s, o), o)
  {
    hide ChannelInv, StInv, SlotTotals, QueueTotals, BufferTotals, OwnSlotsBlocked, QueueBlocked, Proper, DropUpTo,
      AgreedState, Has, RecordState, Ensure, Position;
    if !Consec(s.recvd, o) {
      StCollects(cfg, s.stq, o);
      InsertStInv(cfg, s.recvd, s.applied, s.stq, true, o, SignalState(o), cfg.me);
      DropTotals(tot, s.tcq, o);
    }
  }

  lemma ProcessPrimeTransfer(cfg: Config, tot: nat -> nat, s: State, m: PrimeMsg)
    requires Inv(cfg, s) && TransferInv(cfg, tot, s) && !s.halted && Less(s.recvd, m.ord) && Proper(tot, m.ord)
    ensures TransferInv(cfg, tot, ProcessPrime(cfg, s, m))
  {
    hide ChannelInv, StInv, SignaledAt, TakeUp, SlotTotals, OwnSlotsBlocked, InvAt, ValidFromPrime;
    var o, u := m.ord, m.update;
    if !s.collecting && Admissible(cfg, s, o, u) {
      TakeUpTransfer(cfg, tot, s, o, u);
      TakeUpInv(cfg, s, o, u);
    }
  }

  lemma TakeUpTransfer(cfg: Config, tot: nat -> nat, s: State, o: Ordinal, u: Update)
    requires Inv(cfg, s) && TransferInv(cfg, tot, s) && !s.halted && !s.collecting
    requires Less(s.recvd, o) && Proper(tot, o)
    ensures TransferAt(cfg, tot, TakeUp(cfg, s, o, u), o)
    ensures TransferForMe(cfg, u) || !TakeUp(cfg, s, o, u).collecting
  {
    if !Consec(s.recvd, o) {
      GapBlocks(cfg, tot, s, o);
    }
    AdvanceInv(cfg, s, s.recvd, o);
    SkipPartInv(cfg, s, o, u);
    SkipPartTransfer(cfg, tot, s, o, u);
    if TransferForMe(cfg, u) {
      TransferPartTransfer(cfg, tot, SkipPart(cfg, s, o, u), o);
    }
  }

  lemma {:induction false} ReplayTransfer(cfg: Config, tot: nat -> nat, s: State)
    requires Inv(cfg, s) && TransferInv(cfg, tot, s) && !s.halted
    ensures TransferInv(cfg, tot, Replay(cfg, s))
    decreases |s.pending|
  {
    if s.pending != [] && !s.collecting {
      var m := s.pending[0];
      if Less(s.recvd, m.ord) {
        ProcessPrimeInv(cfg, s, m);
        ProcessPrimeTransfer(cfg, tot, s, m);
      }
      var s1 := if Less(s.recvd, m.ord) then ProcessPrime(cfg, s, m) else s;
      ReplayTransfer(cfg, tot, s1.(pending := s1.pending[1..]));
    }
  }

  lemma FinishTransfer(cfg: Config, tot: nat -> nat, s: State)
    requires Inv(cfg, s) && TransferInv(cfg, tot, s) && !s.halted
    ensures TransferInv(cfg, tot, Finish(cfg, s))
  {
    if s.completed && !s.collecting {
      ReplayTransfer(cfg, tot, s.(completed := false));
    }
  }

  lemma OnPrimeTransfer(cfg: Config, tot: nat -> nat, s: State, m: PrimeMsg)
    requires Inv(cfg, s) && TransferInv(cfg, tot, s) && !s.halted
    requires m.update.SystemReset? || Proper(tot, m.ord)
    ensures TransferInv(cfg, tot, OnPrime(cfg, s, m))
  {
    if !m.update.SystemReset? {
      var s1 := NoteFirst(s, m.ord);
      NoteFirstInv(cfg, s, m.ord);
      assert TransferInv(cfg, tot, s1);
      if Less(s1.recvd, m.ord) {
        ProcessPrimeInv(cfg, s1, m);
        ProcessPrimeTransfer(cfg, tot, s1, m);
        FinishTransfer(cfg, tot, ProcessPrime(cfg, s1, m));
      }
    }
  }

  lemma OnMasterTransfer(cfg: Config, tot: nat -> nat, s: State, reply: SmReply)
    requires Inv(cfg, s) && TransferInv(cfg, tot, s) && !s.halted
    ensures TransferInv(cfg, tot, OnMaster(cfg, s, reply))
  {
    if s.ordq != [] && reply.Scada? {
      var o, p := s.ordq[0], reply.payload;
      var sh := ShareMsg(o, p, Genuine(cfg.me, o, p));
      var s2 := s.(ordq := s.ordq[1..], shares := s.shares + [sh]);
      assert ChannelInv(cfg, s2, s.recvd) && TransferAt(cfg, tot, s2, s.recvd);
      if cfg.cc {
        InsertBlocked(cfg, tot, s2, s.recvd, sh, cfg.me, false);
      }
    }
  }

  lemma OnStateTransfer(cfg: Config, tot: nat -> nat, s: State, sender: nat, st: StateXfer)
    requires Inv(cfg, s) && TransferInv(cfg, tot, s) && !s.halted && cfg.IsReplica(sender) && sender != cfg.me
    requires Proper(tot, st.ord)
    ensures TransferInv(cfg, tot, OnState(cfg, s, sender, st))
  {
    hide InsertSt, StInv, StInvMid, Complete, Finish, Apply, ChannelInv, Totals, Blocked, SignaledAt;
    InsertStInv(cfg, s.recvd, s.applied, s.stq, s.collecting, s.recvd, st, sender);
    if s.collecting {
      SignalStays(cfg, s.recvd, s.applied, s.stq, s.collecting, s.recvd, st, sender);
    }
    var (q, complete) := InsertSt(cfg, s.recvd, s.applied, s.stq, st, sender);
    var s1 := s.(stq := q);
    OtherSlots(cfg, tot, s, q);
    if complete {
      ApplyInv(cfg, s1, st.ord, s.recvd);
      ApplyTransferred(cfg, tot, s1, st.ord);
      FinishTransfer(cfg, tot, Apply(cfg, s1, st.ord));
    } else {
      FinishTransfer(cfg, tot, s1);
    }
  }

  lemma OtherSlots(cfg: Config, tot: nat -> nat, s: State, q: seq<StSlot>)
    ensures Totals(tot, s.(stq := q), s.recvd) == Totals(tot, s, s.recvd)
    ensures Blocked(cfg, s.(stq := q), s.recvd) == Blocked(cfg, s, s.recvd)
    ensures ChannelInv(cfg, s.(stq := q), s.recvd) == ChannelInv(cfg, s, s.recvd)
  {
  }

  lemma ApplyTransferred(cfg: Config, tot: nat -> nat, s: State, o: Ordinal)
    requires Totals(tot, s, s.recvd) && Proper(tot, o) && Transferred(cfg, Apply(cfg, s, o), o)
    ensures TransferInv(cfg, tot, Apply(cfg, s, o))
  {
    hide AgreedState, DropUpTo, SlotTotals, QueueTotals, BufferTotals, SignaledAt, AllAfter;
    DropTotals(tot, s.tcq, o);
  }

  lemma SignalStays(cfg: Config, recvd: Ordinal, applied: Ordinal, q: seq<StSlot>, collecting: bool, at: Ordinal,
                    st: StateXfer, sender: nat)
    requires StInv(cfg, q, collecting, at) && SignaledAt(q, at)
    ensures SignaledAt(InsertSt(cfg, recvd, applied, q, st, sender).0, at)
  {
    hide InsertSt, StSlotInv, SignaledAt;
    InsertStKeepsSignal(cfg, recvd, applied, q, at, st, sender);
  }

  lemma InsertStKeepsSignal(cfg: Config, recvd: Ordinal, applied: Ordinal, q: seq<StSlot>, at: Ordinal, st: StateXfer,
                            sender: nat)
    requires Sorted(q) && SignaledAt(q, at)
    ensures SignaledAt(InsertSt(cfg, recvd, applied, q, st, sender).0, at)
  {
    if !OldState(recvd, applied, st.ord) {
      var q1, k := Ensure(q, st.ord, BLANK_ST), Position(q, st.ord);
      EnsureSorted(q, st.ord, BLANK_ST);
      var r := InsertSt(cfg, recvd, applied, q, st, sender).0;
      var p := Position(q, at);
      var p' := if Has(q, st.ord) || p < k then p else p + 1;
      assert q1[p'] == q[p];
      SortedSame(r, p', at);
    }
  }

  lemma StepTransfer(cfg: Config, tot: nat -> nat, s: State, e: Event)
    requires Inv(cfg, s) && TransferInv(cfg, tot, s) && ProperEvent(cfg, e) && ProperTotals(tot, e)
    ensures TransferInv(cfg, tot, Step(cfg, s, e))
  {
    if !s.halted {
      match e
      case PrimeDelivery(m) => OnPrimeTransfer(cfg, tot, s, m);
      case MasterReply(r) => OnMasterTransfer(cfg, tot, s, r);
      case ShareArrival(sender, sh) =>
        if cfg.cc {
          InsertBlocked(cfg, tot, s, s.recvd, sh, sender, false);
        }
      case StateArrival(sender, st) => OnStateTransfer(cfg, tot, s, sender, st);
      case LinkCredit(n) =>
    }
  }

  /** In every run with proper totals and after every event: the replica is
      collecting exactly when some slot carries an unanswered signal; that slot is
      the only one, it is not yet agreed, it stands at `recvd`, and `applied` is
      still below it. */
  lemma {:induction false} TransferNeverLost(cfg: Config, tot: nat -> nat, es: seq<Event>)
    requires cfg.Valid()
    requires forall i | 0 <= i < |es| :: ProperEvent(cfg, es[i]) && ProperTotals(tot, es[i])
    ensures var s := Run(cfg, es);
            && (s.collecting <==> exists i | 0 <= i < |s.stq| :: s.stq[i].body.signaled)
            && (forall i, j | 0 <= i < |s.stq| && 0 <= j < |s.stq| && s.stq[i].body.signaled
                && s.stq[j].body.signaled :: i == j)
            && (forall i | 0 <= i < |s.stq| && s.stq[i].body.signaled ::
                  !s.stq[i].body.collected && Same(s.stq[i].ord, s.recvd))
            && (s.collecting ==> Less(s.applied, s.recvd))
  {
    RunTransfer(cfg, tot, es);
    RunInv(cfg, es);
  }

  lemma {:induction false} RunTransfer(cfg: Config, tot: nat -> nat, es: seq<Event>)
    requires cfg.Valid()
    requires forall i | 0 <= i < |es| :: ProperEvent(cfg, es[i]) && ProperTotals(tot, es[i])
    ensures TransferInv(cfg, tot, Run(cfg, es))
    decreases |es|
  {
    if es != [] {
      var init, e := es[..|es| - 1], es[|es| - 1];
      RunTransfer(cfg, tot, init);
      RunInv(cfg, init);
      StepTransfer(cfg, tot, Run(cfg, init), e);
    }
  }
}
