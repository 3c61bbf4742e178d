/** Where the replica's promises end: when exactly a guard of the source fails,
    and runs on which it does. */
module Limits {
  import opened Ordinals
  import opened Packets
  import opened Slots
  import opened ItrcSpec
  import opened StInvariants
  import opened ReplicaInvariants
  import opened TransferInvariants
  import ReplayEquivalence

  lemma RunSnoc(cfg: Config, es: seq<Event>, e: Event)
    ensures Run(cfg, es + [e]) == Step(cfg, Run(cfg, es), e)
  {
    assert (es + [e])[..|es|] == es;
  }

  // ---- The assertion after a completed transfer -------------------------------------

  // The state of the transfer at `o` has been agreed on already.
  predicate HoldsAgreed(q: seq<StSlot>, o: Ordinal) {
    Has(q, o) && q[Position(q, o)].body.collected
  }

  // A state is being collected once the message has been processed.
  predicate CollectsAfter(cfg: Config, s: State, m: PrimeMsg) {
    || s.collecting
    || (TransferForMe(cfg, m.update) && !Consec(s.recvd, m.ord) && !HoldsAgreed(s.stq, m.ord))
  }

  // The last report missing for the state the replica waits for.
  predicate LastReport(cfg: Config, s: State, sender: nat, st: StateXfer) {
    && Same(st.ord, s.recvd) && Less(s.applied, st.ord) && SignaledAt(s.stq, st.ord)
    && var b := s.stq[Position(s.stq, st.ord)].body;
       sender !in b.states && |Reporting(b.states, st)| >= cfg.f
  }

  /** A replica stops on exactly these events: a system reset under a non-zero
      ordinal, an answer nobody asked for, and, with the completion flag of an
      earlier replay still set, a later ordinal that leaves a state to be
      collected and any state that is not the last report missing. */
  lemma HaltsExactly(cfg: Config, tot: nat -> nat, s: State, e: Event)
    requires Inv(cfg, s) && TransferInv(cfg, tot, s) && !s.halted && ProperEvent(cfg, e) && ProperTotals(tot, e)
    ensures Step(cfg, s, e).halted <==>
              match e
              case PrimeDelivery(m) =>
                if m.update.SystemReset? then m.ord.num != 0
                else Less(s.recvd, m.ord) && s.completed && CollectsAfter(cfg, s, m)
              case MasterReply(_) => s.ordq == []
              case StateArrival(sender, st) => s.completed && s.collecting && !LastReport(cfg, s, sender, st)
              case _ => false
  {
    hide Inv, TransferInv, InsertSt, ProcessPrime, CollectsAfter, LastReport;
    HaltsAfterStep(cfg, s, e);
    match e
    case PrimeDelivery(m) =>
      if !m.update.SystemReset? && Less(s.recvd, m.ord) {
        CollectsExactly(cfg, tot, s, m);
      }
    case StateArrival(sender, st) => CompletesExactly(cfg, s, sender, st);
    case _ =>
  }

  lemma CompletesExactly(cfg: Config, s: State, sender: nat, st: StateXfer)
    requires Inv(cfg, s) && cfg.IsReplica(sender) && sender != cfg.me
    ensures InsertSt(cfg, s.recvd, s.applied, s.stq, st, sender).1 <==> LastReport(cfg, s, sender, st)
  {
    hide ChannelInv, Position;
    if !OldState(s.recvd, s.applied, st.ord) && Has(s.stq, st.ord) {
      var slot := s.stq[Position(s.stq, st.ord)];
      assert StSlotInv(cfg, slot);
      if sender !in slot.body.states {
        ReportingGrows(slot.body.states, sender, st, st);
        ReportingBounded(slot.body.states, st);
      }
    }
  }

  lemma CollectsExactly(cfg: Config, tot: nat -> nat, s: State, m: PrimeMsg)
    requires Inv(cfg, s) && TransferInv(cfg, tot, s) && !s.halted && Less(s.recvd, m.ord) && Proper(tot, m.ord)
    ensures ProcessPrime(cfg, NoteFirst(s, m.ord), m).collecting <==> CollectsAfter(cfg, s, m)
  {
    hide InvAt, TransferInv, Totals, Blocked, TransferPart, SkipPart, HoldsAgreed;
    var s1, o, u := NoteFirst(s, m.ord), m.ord, m.update;
    NoteFirstInv(cfg, s, o);
    if !s.collecting && TransferForMe(cfg, u) {
      assert TransferInv(cfg, tot, s1) by { NoteFirstTransfer(cfg, tot, s, o); }
      AdvanceInv(cfg, s1, s1.recvd, o);
      SkipPartInv(cfg, s1, o, u);
      if !Consec(s.recvd, o) {
        SkipPartBlocked(cfg, tot, s1, o, u);
      }
      SignalCollects(cfg, SkipPart(cfg, s1, o, u), o);
    }
  }

  lemma NoteFirstTransfer(cfg: Config, tot: nat -> nat, s: State, o: Ordinal)
    requires TransferInv(cfg, tot, s)
    ensures TransferInv(cfg, tot, NoteFirst(s, o))
  {
  }

  lemma SkipPartBlocked(cfg: Config, tot: nat -> nat, s: State, o: Ordinal, u: Update)
    requires Inv(cfg, s) && InvAt(cfg, s, o) && TransferInv(cfg, tot, s)
    requires Less(s.recvd, o) && Proper(tot, o) && !Consec(s.recvd, o)
    ensures Less(SkipPart(cfg, s, o, u).applied, o)
  {
    GapBlocks(cfg, tot, s, o);
    SkipPartTransfer(cfg, tot, s, o, u);
  }

  // What signaling a transfer leaves behind.
  lemma SignalCollects(cfg: Config, s: State, o: Ordinal)
    requires InvAt(cfg, s, o) && !s.collecting && !s.halted && Less(s.recvd, o)
    requires !Consec(s.recvd, o) ==> Less(s.applied, o)
    ensures TransferPart(cfg, s, o).collecting <==> !Consec(s.recvd, o) && !HoldsAgreed(s.stq, o)
  {
    hide ChannelInv, StSlotInv, Position, DropUpTo, Agreed;
    if !Consec(s.recvd, o) {
      var (q, complete) := InsertSt(cfg, s.recvd, s.applied, s.stq, SignalState(o), cfg.me);
      StCollects(cfg, s.stq, o);
      InsertStInv(cfg, s.recvd, s.applied, s.stq, true, o, SignalState(o), cfg.me);
      if complete {
        CompleteHasState(cfg, q, o);
      }
    }
  }

  /** The same without assuming proper event totals, in terms of the step. */
  lemma HaltsAfterStep(cfg: Config, s: State, e: Event)
    requires Inv(cfg, s) && !s.halted && ProperEvent(cfg, e)
    ensures Step(cfg, s, e).halted <==>
              match e
              case PrimeDelivery(m) =>
                if m.update.SystemReset? then m.ord.num != 0
                else Less(s.recvd, m.ord) && s.completed && ProcessPrime(cfg, NoteFirst(s, m.ord), m).collecting
              case MasterReply(_) => s.ordq == []
              case StateArrival(sender, st) =>
                s.completed && s.collecting && !InsertSt(cfg, s.recvd, s.applied, s.stq, st, sender).1
              case _ => false
  {
    match e
    case PrimeDelivery(m) =>
      if !m.update.SystemReset? {
        PrimeHalts(cfg, s, m);
      }
    case StateArrival(sender, st) => StateHalts(cfg, s, sender, st);
    case _ =>
  }

  lemma PrimeHalts(cfg: Config, s: State, m: PrimeMsg)
    requires Inv(cfg, s) && !s.halted && !m.update.SystemReset?
    ensures OnPrime(cfg, s, m).halted <==>
              Less(s.recvd, m.ord) && s.completed && ProcessPrime(cfg, NoteFirst(s, m.ord), m).collecting
  {
    hide Inv, TakeUp, Admit;
    var s1 := NoteFirst(s, m.ord);
    NoteFirstInv(cfg, s, m.ord);
    if Less(s1.recvd, m.ord) {
      ProcessPrimeInv(cfg, s1, m);
      FinishInv(cfg, ProcessPrime(cfg, s1, m));
      if !s1.collecting {
        ReplayEquivalence.ProcessPrimeFrame(cfg, s1, m);
      }
    }
  }

  lemma StateHalts(cfg: Config, s: State, sender: nat, st: StateXfer)
    requires Inv(cfg, s) && !s.halted && cfg.IsReplica(sender) && sender != cfg.me
    ensures OnState(cfg, s, sender, st).halted <==>
              s.completed && s.collecting && !InsertSt(cfg, s.recvd, s.applied, s.stq, st, sender).1
  {
    hide RecordState, Finish;
    InsertStInv(cfg, s.recvd, s.applied, s.stq, s.collecting, s.recvd, st, sender);
    var (q, complete) := InsertSt(cfg, s.recvd, s.applied, s.stq, st, sender);
    var s1 := s.(stq := q);
    if complete {
      ApplyInv(cfg, s1, st.ord, s.recvd);
      FinishInv(cfg, Apply(cfg, s1, st.ord));
    } else {
      FinishInv(cfg, s1);
    }
  }

  // ---- A run on which it does ----------------------------------------------------------

  // A data-center replica of the deployment the source ships: f = 1 and k = 1.
  const DATA_CENTER := Config(1, 1, 1, false)

  function Order(n: nat): PrimeMsg {
    PrimeMsg(Ordinal(n, 1, 1), StateTransfer(1))
  }

  function StateFor(n: nat): StateXfer {
    StateXfer(Ordinal(n, 1, 1), 1, NoProgress(), 0, [])
  }

  // Three transfers are ordered; two peers send the states for the second and
  // then for the first.
  function StackedTransfers(): seq<Event> {
    [PrimeDelivery(Order(2)), PrimeDelivery(Order(4)), PrimeDelivery(Order(6)),
     StateArrival(2, StateFor(4)), StateArrival(3, StateFor(4)),
     StateArrival(2, StateFor(2)), StateArrival(3, StateFor(2))]
  }

  // A slot nobody reported to, one with the first report and one with both.
  function Waiting(n: nat): StSlot {
    Slot(Ordinal(n, 1, 1), BLANK_ST.(signaled := true))
  }

  function Half(n: nat, signaled: bool): StSlot {
    Slot(Ordinal(n, 1, 1), StBody(false, signaled, 1, map[2 := StateFor(n)], None))
  }

  function Full(n: nat, signaled: bool): StSlot {
    Slot(Ordinal(n, 1, 1), StBody(true, signaled, 2, map[2 := StateFor(n), 3 := StateFor(n)], Some(3)))
  }

  // Collecting a state for the order at batch 2.
  function FirstWait(stq: seq<StSlot>, pending: seq<PrimeMsg>): State {
    Initial().(stq := stq, recvd := Ordinal(2, 1, 1), pending := pending,
               collecting := true, firstSeen := true, injected := 1)
  }

  lemma FirstOrder()
    ensures Step(DATA_CENTER, Initial(), PrimeDelivery(Order(2))) == FirstWait([Waiting(2)], [])
  {
  }

  lemma LaterOrder(pending: seq<PrimeMsg>, n: nat)
    requires 2 < n
    ensures Step(DATA_CENTER, FirstWait([Waiting(2)], pending), PrimeDelivery(Order(n)))
         == FirstWait([Waiting(2)], pending + [Order(n)])
  {
  }

  // One report is not enough for this replica.
  lemma FirstReport(n: nat, b: StBody)
    requires b == BLANK_ST || b == Waiting(n).body
    ensures RecordState(DATA_CENTER, b, StateFor(n), 2) == Half(n, b.signaled).body
  {
    hide Reporting;
    var states: map<nat, StateXfer> := map[];
    assert b.states == states && states[2 := StateFor(n)] == map[2 := StateFor(n)];
  }

  // Two are.
  lemma SecondReport(n: nat, signaled: bool)
    ensures RecordState(DATA_CENTER, Half(n, signaled).body, StateFor(n), 3) == Full(n, signaled).body
  {
    var st := StateFor(n);
    var states := map[2 := st, 3 := st];
    assert map[2 := st][3 := st] == states;
    assert Reporting(states, st) == {2, 3};
  }

  // A state that completes nothing only changes the queue.
  lemma OnlyStored(q: seq<StSlot>, q': seq<StSlot>, pending: seq<PrimeMsg>, sender: nat, st: StateXfer)
    requires InsertSt(DATA_CENTER, Ordinal(2, 1, 1), ZERO, q, st, sender) == (q', false)
    ensures Step(DATA_CENTER, FirstWait(q, pending), StateArrival(sender, st)) == FirstWait(q', pending)
  {
    hide InsertSt;
  }

  lemma EarlyState(pending: seq<PrimeMsg>)
    ensures Step(DATA_CENTER, FirstWait([Waiting(2)], pending), StateArrival(2, StateFor(4)))
         == FirstWait([Waiting(2), Half(4, false)], pending)
  {
    hide RecordState, Position, Ensure;
    var st, q := StateFor(4), [Waiting(2)];
    PositionUnique(q, st.ord, 1);
    var q1 := [Waiting(2), Slot(st.ord, BLANK_ST)];
    assert Ensure(q, st.ord, BLANK_ST) == q1 by { AppendsSlot(q, st.ord); }
    FirstReport(4, BLANK_ST);
    assert SetBody(q1, 1, Half(4, false).body) == [Waiting(2), Half(4, false)];
    OnlyStored(q, [Waiting(2), Half(4, false)], pending, 2, st);
  }

  lemma AppendsSlot(q: seq<StSlot>, o: Ordinal)
    requires Position(q, o) == |q|
    ensures Ensure(q, o, BLANK_ST) == q + [Slot(o, BLANK_ST)]
  {
  }

  lemma EarlyAgreement(pending: seq<PrimeMsg>)
    ensures Step(DATA_CENTER, FirstWait([Waiting(2), Half(4, false)], pending), StateArrival(3, StateFor(4)))
         == FirstWait([Waiting(2), Full(4, false)], pending)
  {
    hide RecordState, Position;
    var st, q, q' := StateFor(4), [Waiting(2), Half(4, false)], [Waiting(2), Full(4, false)];
    PositionUnique(q, st.ord, 1);
    SecondReport(4, false);
    assert SetBody(q, 1, Full(4, false).body) == q';
    OnlyStored(q, q', pending, 3, st);
  }

  lemma WantedOnce(pending: seq<PrimeMsg>)
    ensures Step(DATA_CENTER, FirstWait([Waiting(2), Full(4, false)], pending), StateArrival(2, StateFor(2)))
         == FirstWait([Half(2, true), Full(4, false)], pending)
  {
    hide RecordState, Position;
    var st, q, q' := StateFor(2), [Waiting(2), Full(4, false)], [Half(2, true), Full(4, false)];
    PositionUnique(q, st.ord, 0);
    FirstReport(2, Waiting(2).body);
    assert SetBody(q, 0, Half(2, true).body) == q';
    OnlyStored(q, q', pending, 2, st);
  }

  // Waiting for the order at batch 6 with the flag still set.
  predicate ThirdWait(s: State) {
    && s.completed && s.collecting && !s.halted && s.recvd == Ordinal(6, 1, 1)
    && s.stq == [Waiting(6)]
  }

  // The second state for batch 2 completes the first transfer; replaying the order at
  // batch 4 completes the second at once, and the order at batch 6 starts a third.
  lemma WantedTwice()
    ensures ThirdWait(Step(DATA_CENTER, FirstWait([Half(2, true), Full(4, false)], [Order(4), Order(6)]),
                           StateArrival(3, StateFor(2))))
  {
    hide OnState, ProcessPrime;
    var c := FirstWait([Half(2, true), Full(4, false)], [Order(4), Order(6)]);
    FirstCompletes(c);
    assert !c.halted;
    var a := AfterFirst();
    assert Step(DATA_CENTER, c, StateArrival(3, StateFor(2))) == Replay(DATA_CENTER, a);
    SecondCompletes();
    var b := AfterSecond();
    assert Replay(DATA_CENTER, a) == Replay(DATA_CENTER, b);
    ThirdCollects();
  }

  // After the first transfer, about to replay.
  function AfterFirst(): State {
    Initial().(stq := [Full(4, false)], recvd := Ordinal(2, 1, 1), applied := Ordinal(2, 1, 1),
               pending := [Order(4), Order(6)], firstSeen := true, injected := 1,
               toSm := [InstallState(StateFor(2))], consumed := [Jumped(Ordinal(2, 1, 1))])
  }

  function AfterSecond(): State {
    AfterFirst().(stq := [], recvd := Ordinal(4, 1, 1), applied := Ordinal(4, 1, 1),
                  pending := [Order(6)], completed := true,
                  toSm := [InstallState(StateFor(2)), InstallState(StateFor(4))],
                  consumed := [Jumped(Ordinal(2, 1, 1)), Jumped(Ordinal(4, 1, 1))])
  }

  lemma FirstCompletes(c: State)
    requires c == FirstWait([Half(2, true), Full(4, false)], [Order(4), Order(6)])
    ensures OnState(DATA_CENTER, c, 3, StateFor(2)) == Replay(DATA_CENTER, AfterFirst())
  {
    hide Replay, RecordState;
    var st := StateFor(2);
    SecondReport(2, true);
    var q := [Full(2, true), Full(4, false)];
    PositionUnique(c.stq, st.ord, 0);
    assert SetBody(c.stq, 0, Full(2, true).body) == q;
    assert InsertSt(DATA_CENTER, c.recvd, ZERO, c.stq, st, 3) == (q, true);
    assert DropUpTo(q, st.ord) == [Full(4, false)];
    PositionUnique(q, st.ord, 0);
    assert AgreedState(q, st.ord) == Some(st);
    assert Apply(DATA_CENTER, c.(stq := q), st.ord) == AfterFirst().(completed := true);
    assert AfterFirst().(completed := true).(completed := false) == AfterFirst();
  }

  lemma SecondCompletes()
    ensures ProcessPrime(DATA_CENTER, AfterFirst(), Order(4)).(pending := [Order(6)]) == AfterSecond()
  {
    var a, o := AfterFirst(), Ordinal(4, 1, 1);
    var q := [Full(4, true)];
    PositionUnique(a.stq, o, 0);
    assert SetBody(a.stq, 0, Full(4, true).body) == q;
    assert InsertSt(DATA_CENTER, a.recvd, a.applied, a.stq, SignalState(o), 1) == (q, true);
    assert DropUpTo(q, o) == [];
  }

  lemma ThirdCollects()
    ensures ThirdWait(Replay(DATA_CENTER, AfterSecond()))
  {
  }

  /** A run on which the replay that follows a transfer completes a second one and
      starts a third.  It leaves the flag set, and the next state to arrive stops
      the replica, whoever sends it and whatever it holds. */
  lemma StackedTransfersStop(sender: nat, st: StateXfer)
    requires DATA_CENTER.IsReplica(sender) && sender != 1
    ensures var s := Run(DATA_CENTER, StackedTransfers());
            !s.halted && Step(DATA_CENTER, s, StateArrival(sender, st)).halted
  {
    hide Inv, InsertSt, Step;
    var es := StackedTransfers();
    RunStacked();
    RunInv(DATA_CENTER, es);
    var s := Run(DATA_CENTER, es);
    HaltsAfterStep(DATA_CENTER, s, StateArrival(sender, st));
    CompletesExactly(DATA_CENTER, s, sender, st);
    NobodyReported(s, sender, st);
  }

  lemma NobodyReported(s: State, sender: nat, st: StateXfer)
    requires ThirdWait(s)
    ensures !LastReport(DATA_CENTER, s, sender, st)
  {
    assert Reporting(map[], st) == {};
  }

  lemma RunStacked()
    ensures ThirdWait(Run(DATA_CENTER, StackedTransfers()))
  {
    hide Step, FirstWait, Waiting, Half, Full, ThirdWait;
    var es, pending := StackedTransfers(), [Order(4), Order(6)];
    FirstOrder();
    LaterOrder([], 4);
    LaterOrder([Order(4)], 6);
    EarlyState(pending);
    EarlyAgreement(pending);
    WantedOnce(pending);
    WantedTwice();
    assert [] + [Order(4)] == [Order(4)] && [Order(4)] + [Order(6)] == pending;
    RunPrefix(es, 0);
    RunPrefix(es, 1);
    RunPrefix(es, 2);
    RunPrefix(es, 3);
    RunPrefix(es, 4);
    RunPrefix(es, 5);
    RunPrefix(es, 6);
    assert es[..0] == [] && es[..7] == es;
  }

  lemma RunPrefix(es: seq<Event>, n: nat)
    requires n < |es|
    ensures Run(DATA_CENTER, es[..n + 1]) == Step(DATA_CENTER, Run(DATA_CENTER, es[..n]), es[n])
  {
    assert es[..n + 1] == es[..n] + [es[n]];
    RunSnoc(DATA_CENTER, es[..n], es[n]);
  }

  // ---- A transfer lost to a wrong event total ----------------------------------------

  predicate NoSignal(q: seq<StSlot>) {
    forall i | 0 <= i < |q| :: !q[i].body.signaled
  }

  /** A transfer signaled across a gap is kept (or completes at once) exactly
      when its ordinal still lies beyond `applied`; otherwise the replica
      collects without having noted what for. */
  lemma LostExactly(cfg: Config, s: State, o: Ordinal)
    requires InvAt(cfg, s, o) && !s.collecting && !s.halted && Less(s.recvd, o) && !Consec(s.recvd, o)
    ensures var r := TransferPart(cfg, s, o);
            && (Less(s.applied, o) <==> SignaledAt(r.stq, o) || !r.collecting)
            && (!Less(s.applied, o) ==> r.collecting && NoSignal(r.stq))
  {
    hide RecordState, Apply, DropUpTo, ChannelInv, StSlotInv, Agreed, Position, Ensure;
    assert StInv(cfg, s.stq, true, o);
    InsertStInv(cfg, s.recvd, s.applied, s.stq, true, o, SignalState(o), cfg.me);
    var (q, complete) := InsertSt(cfg, s.recvd, s.applied, s.stq, SignalState(o), cfg.me);
    if complete {
      SlotsApart(cfg, s, true, q, o);
      ApplyInv(cfg, s.(collecting := true, stq := q), o, o);
    }
  }

  // Collecting, but no slot waits for a state.
  ghost predicate Stuck(cfg: Config, s: State) {
    Inv(cfg, s) && s.collecting && !s.completed && !s.halted && NoSignal(s.stq)
  }

  lemma InsertKeepsNoSignal(cfg: Config, recvd: Ordinal, applied: Ordinal, q: seq<StSlot>, st: StateXfer, sender: nat)
    requires Sorted(q) && NoSignal(q) && sender != cfg.me
    ensures var (r, complete) := InsertSt(cfg, recvd, applied, q, st, sender); NoSignal(r) && !complete
  {
    EnsureSorted(q, st.ord, BLANK_ST);
  }

  lemma StuckStep(cfg: Config, s: State, e: Event)
    requires Stuck(cfg, s) && ProperEvent(cfg, e)
    requires !(e.PrimeDelivery? && e.m.update.SystemReset?)
    ensures Step(cfg, s, e).halted || Stuck(cfg, Step(cfg, s, e))
    ensures Step(cfg, s, e).recvd == s.recvd && Step(cfg, s, e).progress == s.progress
  {
    hide InsertSt;
    StepInv(cfg, s, e);
    if e.StateArrival? {
      InsertKeepsNoSignal(cfg, s.recvd, s.applied, s.stq, e.xfer, e.sender);
    }
  }

  /** A lost transfer is lost for good: until a system reset, no later event
      ends the collection or moves the replica past another ordinal. */
  lemma {:induction false} StuckForGood(cfg: Config, es: seq<Event>, more: seq<Event>)
    requires Stuck(cfg, Run(cfg, es))
    requires forall i | 0 <= i < |more| ::
               ProperEvent(cfg, more[i]) && !(more[i].PrimeDelivery? && more[i].m.update.SystemReset?)
    ensures var s, r := Run(cfg, es), Run(cfg, es + more);
            (r.halted || Stuck(cfg, r)) && r.recvd == s.recvd && r.progress == s.progress
    decreases |more|
  {
    hide Stuck, OnPrime, OnMaster, OnShare, OnState;
    if more == [] {
      assert es + more == es;
    } else {
      var n := |more| - 1;
      StuckForGood(cfg, es, more[..n]);
      assert es + more == es + more[..n] + [more[n]];
      RunSnoc(cfg, es + more[..n], more[n]);
      if !Run(cfg, es + more[..n]).halted {
        StuckStep(cfg, Run(cfg, es + more[..n]), more[n]);
      }
    }
  }

  // A control-center replica; a share announces batch 1 with the wrong total.
  const CONTROL_CENTER := Config(1, 1, 1, true)

  function WrongTotal(): seq<Event> {
    [ShareArrival(2, ShareMsg(Ordinal(1, 1, 1), NoPayload, Junk)),
     PrimeDelivery(PrimeMsg(Ordinal(1, 1, 2), NoOp(1))),
     PrimeDelivery(PrimeMsg(Ordinal(2, 1, 1), StateTransfer(1)))]
  }

  // The slot opened by that share, and the replica once its own empty slot fills it.
  function EarlySlot(): TcSlot {
    var sh := ShareMsg(Ordinal(1, 1, 1), NoPayload, Junk);
    Slot(sh.ord, TcBody(false, false, 1, {2}, map[2 := sh], None))
  }

  function AfterNoOp(): State {
    Initial().(applied := Ordinal(1, 1, 1), recvd := Ordinal(1, 1, 2), firstSeen := true,
        consumed := [Skipped(Ordinal(1, 1, 1))])
  }

  lemma WrongShare()
    ensures Step(CONTROL_CENTER, Initial(), WrongTotal()[0]) == Initial().(tcq := [EarlySlot()])
  {
    hide ConstructFinal;
    var none: set<nat> := {};
    assert none + {2} == {2};
    assert RecordShare(CONTROL_CENTER, BLANK_TC, WrongTotal()[0].share, 2, false) == EarlySlot().body;
    assert SetBody([Slot(Ordinal(1, 1, 1), BLANK_TC)], 0, EarlySlot().body) == [EarlySlot()];
  }

  lemma NoOpSkips()
    ensures Step(CONTROL_CENTER, Initial().(tcq := [EarlySlot()]), WrongTotal()[1]) == AfterNoOp()
  {
    var cfg, s, m := CONTROL_CENTER, Initial().(tcq := [EarlySlot()]), WrongTotal()[1].m;
    var sh := ShareMsg(m.ord, NoPayload, Junk);
    PositionUnique(s.tcq, m.ord, 0);
    var full := Slot(Ordinal(1, 1, 1), EarlySlot().body.(recvd := {2, 1}, count := 2, done := true, skip := true));
    assert {2} + {1} == {2, 1};
    assert RecordShare(cfg, EarlySlot().body, sh, 1, true) == full.body;
    assert SetBody(s.tcq, 0, full.body) == [full];
    assert InsertTc(cfg, ZERO, s.tcq, sh, 1, true) == [full];
    assert ReadyDeliver(cfg, Ordinal(1, 1, 1), []) == Ready(None, false, Ordinal(1, 1, 1), [], []);
    assert ReadyDeliver(cfg, ZERO, [full]) == Ready(None, false, Ordinal(1, 1, 1), [], [Skipped(Ordinal(1, 1, 1))]);
    assert NoteFirst(s, m.ord) == s.(firstSeen := true);
  }

  lemma TransferSkips()
    ensures SkipPart(CONTROL_CENTER, AfterNoOp(), Ordinal(2, 1, 1), StateTransfer(1)).applied == Ordinal(2, 1, 1)
  {
    var cfg, s, o := CONTROL_CENTER, AfterNoOp(), Ordinal(2, 1, 1);
    var sh := ShareMsg(o, NoPayload, Junk);
    var none: set<nat> := {};
    assert none + {1} == {1};
    var own := Slot(o, TcBody(true, true, 1, {1}, map[], None));
    assert RecordShare(cfg, BLANK_TC, sh, 1, true) == own.body;
    assert SetBody([Slot(o, BLANK_TC)], 0, own.body) == [own];
    assert InsertTc(cfg, s.applied, s.tcq, sh, 1, true) == [own];
    assert ReadyDeliver(cfg, o, []) == Ready(None, false, o, [], []);
    assert ReadyDeliver(cfg, s.applied, [own]) == Ready(None, false, o, [], [Skipped(o)]);
  }

  /** Two events and one share with a wrong total suffice: the replica collects,
      waits for nothing, and stays so whatever arrives. */
  lemma WrongTotalSticks(more: seq<Event>)
    requires forall i | 0 <= i < |more| ::
               ProperEvent(CONTROL_CENTER, more[i]) && !(more[i].PrimeDelivery? && more[i].m.update.SystemReset?)
    ensures var r := Run(CONTROL_CENTER, WrongTotal() + more);
            r.halted || (r.collecting && NoSignal(r.stq) && r.recvd == Ordinal(2, 1, 1))
  {
    RunWrongTotal();
    StuckForGood(CONTROL_CENTER, WrongTotal(), more);
  }

  lemma RunWrongTotal()
    ensures Stuck(CONTROL_CENTER, Run(CONTROL_CENTER, WrongTotal()))
    ensures Run(CONTROL_CENTER, WrongTotal()).recvd == Ordinal(2, 1, 1)
  {
    hide Inv, Step, AfterNoOp, EarlySlot;
    var cfg, es := CONTROL_CENTER, WrongTotal();
    WrongShare();
    NoOpSkips();
    RunSnoc(cfg, [], es[0]);
    RunSnoc(cfg, es[..1], es[1]);
    RunSnoc(cfg, es[..2], es[2]);
    assert es[..1] == [] + [es[0]] && es[..2] == es[..1] + [es[1]] && es == es[..2] + [es[2]];
    RunInv(cfg, es);
    LostTransfer();
  }

  lemma LostTransfer()
    ensures var s := Step(CONTROL_CENTER, AfterNoOp(), WrongTotal()[2]);
            s.collecting && !s.completed && !s.halted && NoSignal(s.stq) && s.recvd == Ordinal(2, 1, 1)
  {
    hide SkipPart, RecordState;
    TransferSkips();
    assert NoteFirst(AfterNoOp(), Ordinal(2, 1, 1)) == AfterNoOp();
  }
}
