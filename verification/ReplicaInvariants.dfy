/** What holds of a replica after every event of every run. */
module ReplicaInvariants {
  import opened Ordinals
  import opened Packets
  import opened Slots
  import opened ItrcSpec
  import opened TcInvariants
  import opened StInvariants

  predicate Increasing(os: seq<Ordinal>) {
    forall i, j | 0 <= i < j < |os| :: Less(os[i], os[j])
  }

  // The ordinal queue holds increasing ordinals up to `at`; what was signed so
  // far is increasing too and lies before everything still queued.
  predicate SignedInv(cfg: Config, s: State, at: Ordinal) {
    SignedOk(cfg.me, s.ordq, s.shares, at)
  }

  predicate SignedOk(me: nat, ordq: seq<Ordinal>, shares: seq<ShareMsg>, at: Ordinal) {
    && Increasing(ordq)
    && (forall i | 0 <= i < |ordq| :: !Less(at, ordq[i]))
    && (forall i, j | 0 <= i < j < |shares| :: Less(shares[i].ord, shares[j].ord))
    && (forall i, j | 0 <= i < |shares| && 0 <= j < |ordq| :: Less(shares[i].ord, ordq[j]))
    && (forall i | 0 <= i < |shares| ::
          shares[i].sig == Genuine(me, shares[i].ord, shares[i].payload) && !Less(at, shares[i].ord))
  }

  predicate ChannelInv(cfg: Config, s: State, at: Ordinal) {
    && TcInv(cfg, s.applied, at, s.tcq)
    && (!cfg.cc ==> s.tcq == [])
    && ConsumedInv(s, cfg.cc)
    && FinalsVerify(cfg, s)
    && SignedInv(cfg, s, at)
  }

  // `at` is the highest Prime ordinal taken up; between events it is `recvd`.
  ghost predicate InvAt(cfg: Config, s: State, at: Ordinal) {
    && cfg.Valid()
    && ChannelInv(cfg, s, at)
    && StInv(cfg, s.stq, s.collecting, at)
  }

  ghost predicate Inv(cfg: Config, s: State) {
    InvAt(cfg, s, s.recvd)
  }

  // No network message carries the replica's own number.
  predicate ProperEvent(cfg: Config, e: Event) {
    match e
    case ShareArrival(sender, _) => cfg.IsReplica(sender) && sender != cfg.me
    case StateArrival(sender, _) => cfg.IsReplica(sender) && sender != cfg.me
    case _ => true
  }

  lemma InitialInv(cfg: Config)
    requires cfg.Valid()
    ensures Inv(cfg, Initial())
  {
  }

  lemma AdvanceInv(cfg: Config, s: State, at: Ordinal, o: Ordinal)
    requires InvAt(cfg, s, at) && !s.collecting && Less(at, o)
    ensures InvAt(cfg, s, o)
  {
  }

  lemma InsertInv(cfg: Config, s: State, at: Ordinal, sh: ShareMsg, sender: nat, skip: bool)
    requires ChannelInv(cfg, s, at) && cfg.cc && cfg.IsReplica(sender)
    requires skip ==> sender == cfg.me
    requires sender == cfg.me ==> !Less(at, sh.ord)
    ensures ChannelInv(cfg, InsertAndDrain(cfg, s, sh, sender, skip), at)
  {
    InsertAndDrainInv(cfg, at, s, sh, sender, skip);
  }

  lemma SkipPartInv(cfg: Config, s: State, o: Ordinal, u: Update)
    requires InvAt(cfg, s, o)
    ensures InvAt(cfg, SkipPart(cfg, s, o, u), o)
  {
    if EmptySlot(cfg, s, u) && cfg.cc {
      InsertInv(cfg, s, o, ShareMsg(o, NoPayload, Junk), cfg.me, true);
    }
  }

  // What a completed transfer establishes.
  ghost predicate Transferred(cfg: Config, s: State, o: Ordinal) {
    && !s.halted && !s.collecting && s.completed
    && s.applied == o
    && AllAfter(s.tcq, o) && AllAfter(s.stq, o)
  }

  /** Completing a transfer never trips over a missing state, and leaves only
      later ordinals in both queues. */
  lemma ApplyInv(cfg: Config, s: State, o: Ordinal, at: Ordinal)
    requires cfg.Valid() && ChannelInv(cfg, s, at) && !s.halted
    requires StInvMid(cfg, s.stq, s.collecting, at) && Complete(cfg, s.stq, o) && Same(o, at) && Less(s.applied, o)
    ensures var r := Apply(cfg, s, o);
            && InvAt(cfg, r, at) && Transferred(cfg, r, o)
            && r.progress == AgreedState(s.stq, o).value.latest
            && r.ordq == s.ordq && r.recvd == s.recvd
  {
    hide AgreedState, Complete, StInv, StInvMid, TcInv, ConsumedOk, SignedOk, AllVerify, DropUpTo, Sorted;
    StDrops(cfg, s.stq, s.collecting, at, o);
    DropTcInv(cfg, s.applied, at, s.tcq, o);
    JumpConsumed(s.consumed, s.applied, cfg.cc, o);
    if !cfg.cc {
      assert DropUpTo(s.tcq, o) == [] by { DropEmpty<TcBody>(o); }
    }
  }

  lemma DropEmpty<T>(o: Ordinal)
    ensures DropUpTo<T>([], o) == []
  {
  }

  lemma StDrops(cfg: Config, q: seq<StSlot>, collecting: bool, at: Ordinal, o: Ordinal)
    requires StInvMid(cfg, q, collecting, at) && Complete(cfg, q, o) && Same(o, at)
    ensures AgreedState(q, o).Some? && AllAfter(DropUpTo(q, o), o) && StInv(cfg, DropUpTo(q, o), false, at)
  {
    hide StSlotInv, Complete, AgreedState, StInv;
    CompleteHasState(cfg, q, o);
    DropUpToShape(q, o);
    DropStAt(cfg, q, collecting, at, o);
  }

  // A jump beyond everything applied continues the chain.
  lemma JumpConsumed(consumed: seq<Consumed>, applied: Ordinal, cc: bool, o: Ordinal)
    requires ConsumedOk(consumed, applied, cc) && Less(applied, o)
    ensures ConsumedOk(consumed + [Jumped(o)], o, cc)
  {
    LessChain(Last(ZERO, consumed), applied, o);
    ChainAppend(ZERO, consumed, [Jumped(o)]);
  }

  lemma LessChain(a: Ordinal, b: Ordinal, c: Ordinal)
    requires !Less(b, a) && Less(b, c)
    ensures Less(a, c)
  {
  }

  lemma DropStAt(cfg: Config, q: seq<StSlot>, collecting: bool, at: Ordinal, o: Ordinal)
    requires StInvMid(cfg, q, collecting, at) && Same(o, at)
    ensures StInv(cfg, DropUpTo(q, o), false, at)
  {
    DropUpToShape(q, o);
  }

  // The channel's part does not look at the ST queue.
  lemma SlotsApart(cfg: Config, s: State, collecting: bool, q: seq<StSlot>, at: Ordinal)
    ensures ChannelInv(cfg, s.(collecting := collecting, stq := q), at) == ChannelInv(cfg, s, at)
  {
  }

  lemma TransferPartInv(cfg: Config, s: State, o: Ordinal)
    requires InvAt(cfg, s, o) && !s.collecting && !s.halted && Less(s.recvd, o)
    ensures var r := TransferPart(cfg, s, o);
            && InvAt(cfg, r, o) && !r.halted && r.ordq == s.ordq
  {
    hide InvAt, TransferPart;
    if Consec(s.recvd, o) {
      UnneededInv(cfg, s, o);
    } else {
      NeededInv(cfg, s, o);
    }
  }

  lemma NeededInv(cfg: Config, s: State, o: Ordinal)
    requires InvAt(cfg, s, o) && !s.collecting && !s.halted && !Consec(s.recvd, o)
    ensures var r := TransferPart(cfg, s, o);
            && InvAt(cfg, r, o) && !r.halted && r.ordq == s.ordq
  {
    hide ChannelInv, StInv, StInvMid, Complete, InsertSt, Apply;
    StCollects(cfg, s.stq, o);
    InsertStInv(cfg, s.recvd, s.applied, s.stq, true, o, SignalState(o), cfg.me);
    var (q, complete) := InsertSt(cfg, s.recvd, s.applied, s.stq, SignalState(o), cfg.me);
    SlotsApart(cfg, s, true, q, o);
    if complete {
      ApplyInv(cfg, s.(collecting := true, stq := q), o, o);
    }
  }

  lemma StCollects(cfg: Config, q: seq<StSlot>, o: Ordinal)
    requires StInv(cfg, q, false, o)
    ensures StInv(cfg, q, true, o)
  {
    hide StSlotInv;
  }

  lemma UnneededInv(cfg: Config, s: State, o: Ordinal)
    requires InvAt(cfg, s, o) && !s.collecting && !s.halted && Consec(s.recvd, o)
    ensures var r := TransferPart(cfg, s, o);
            && InvAt(cfg, r, o) && !r.halted && r.ordq == s.ordq
  {
    hide StSlotInv, TcSlotInv, DropUpTo;
    DropStAt(cfg, s.stq, false, o, o);
    if !cfg.cc {
      LessOrSame(s, o);
    }
  }

  lemma LessOrSame(s: State, o: Ordinal)
    requires ConsumedInv(s, false) && !Less(o, s.applied)
    ensures !Less(o, Last(ZERO, s.consumed))
  {
  }

  lemma ForwardPartInv(cfg: Config, s: State, o: Ordinal, u: Update, dup: bool)
    requires InvAt(cfg, s, o) && (forall i | 0 <= i < |s.ordq| :: Less(s.ordq[i], o))
    requires forall i | 0 <= i < |s.shares| :: Less(s.shares[i].ord, o)
    ensures InvAt(cfg, ForwardPart(cfg, s, o, u, dup), o)
  {
    hide TcInv, StInv, ConsumedOk, AllVerify, ValidFromPrime;
  }

  lemma TakeUpInv(cfg: Config, s: State, o: Ordinal, u: Update)
    requires Inv(cfg, s) && !s.halted && !s.collecting && Less(s.recvd, o)
    ensures var r := TakeUp(cfg, s, o, u);
            && InvAt(cfg, r, o) && !r.halted && r.ordq == s.ordq && r.shares == s.shares
  {
    AdvanceInv(cfg, s, s.recvd, o);
    SkipPartInv(cfg, s, o, u);
    if TransferForMe(cfg, u) {
      TransferPartInv(cfg, SkipPart(cfg, s, o, u), o);
      TransferPartShares(cfg, SkipPart(cfg, s, o, u), o);
    }
  }

  lemma ProcessPrimeInv(cfg: Config, s: State, m: PrimeMsg)
    requires Inv(cfg, s) && !s.halted && Less(s.recvd, m.ord)
    ensures Inv(cfg, ProcessPrime(cfg, s, m)) && !ProcessPrime(cfg, s, m).halted
  {
    var o, u := m.ord, m.update;
    if !s.collecting && Admissible(cfg, s, o, u) {
      TakeUpInv(cfg, s, o, u);
      ForwardPartInv(cfg, TakeUp(cfg, s, o, u).(recvd := o), o, u, Duplicate(cfg, s, u));
    }
  }

  lemma TransferPartShares(cfg: Config, s: State, o: Ordinal)
    ensures TransferPart(cfg, s, o).shares == s.shares
  {
  }

  lemma {:induction false} ReplayInv(cfg: Config, s: State)
    requires Inv(cfg, s) && !s.halted
    ensures Inv(cfg, Replay(cfg, s)) && !Replay(cfg, s).halted
    decreases |s.pending|
  {
    if s.pending != [] && !s.collecting {
      var m := s.pending[0];
      if Less(s.recvd, m.ord) {
        ProcessPrimeInv(cfg, s, m);
      }
      var s1 := if Less(s.recvd, m.ord) then ProcessPrime(cfg, s, m) else s;
      ReplayInv(cfg, s1.(pending := s1.pending[1..]));
    }
  }

  /** The assertion after a completed transfer stops the replica exactly when a
      new collection is already under way. */
  lemma FinishInv(cfg: Config, s: State)
    requires Inv(cfg, s) && !s.halted
    ensures Inv(cfg, Finish(cfg, s))
    ensures Finish(cfg, s).halted <==> s.completed && s.collecting
  {
    if s.completed && !s.collecting {
      ReplayInv(cfg, s.(completed := false));
    }
  }

  lemma NoteFirstInv(cfg: Config, s: State, o: Ordinal)
    requires Inv(cfg, s)
    ensures Inv(cfg, NoteFirst(s, o))
  {
  }

  lemma ResetInv(cfg: Config, s: State)
    requires cfg.Valid()
    ensures Inv(cfg, Reset(s))
  {
  }

  lemma OnPrimeInv(cfg: Config, s: State, m: PrimeMsg)
    requires Inv(cfg, s) && !s.halted
    ensures Inv(cfg, OnPrime(cfg, s, m))
  {
    if m.update.SystemReset? {
      ResetInv(cfg, s);
    } else {
      var s1 := NoteFirst(s, m.ord);
      NoteFirstInv(cfg, s, m.ord);
      if Less(s1.recvd, m.ord) {
        ProcessPrimeInv(cfg, s1, m);
        FinishInv(cfg, ProcessPrime(cfg, s1, m));
      }
    }
  }

  lemma OnMasterInv(cfg: Config, s: State, reply: SmReply)
    requires Inv(cfg, s) && !s.halted
    ensures Inv(cfg, OnMaster(cfg, s, reply))
  {
    if s.ordq != [] && reply.Scada? {
      var o, p := s.ordq[0], reply.payload;
      var sh := ShareMsg(o, p, Genuine(cfg.me, o, p));
      var s2 := s.(ordq := s.ordq[1..], shares := s.shares + [sh]);
      assert ChannelInv(cfg, s2, s.recvd);
      if cfg.cc {
        InsertInv(cfg, s2, s.recvd, sh, cfg.me, false);
      }
    }
  }

  lemma OnStateInv(cfg: Config, s: State, sender: nat, st: StateXfer)
    requires Inv(cfg, s) && !s.halted && cfg.IsReplica(sender) && sender != cfg.me
    ensures Inv(cfg, OnState(cfg, s, sender, st))
  {
    hide ChannelInv, StInv, StInvMid, Complete, Apply, Finish, InsertSt;
    InsertStInv(cfg, s.recvd, s.applied, s.stq, s.collecting, s.recvd, st, sender);
    var (q, complete) := InsertSt(cfg, s.recvd, s.applied, s.stq, st, sender);
    var s1 := s.(stq := q);
    SlotsApart(cfg, s, s.collecting, q, s.recvd);
    assert s1 == s.(collecting := s.collecting, stq := q);
    if complete {
      ApplyInv(cfg, s1, st.ord, s.recvd);
      FinishInv(cfg, Apply(cfg, s1, st.ord));
    } else {
      FinishInv(cfg, s1);
    }
  }

  lemma StepInv(cfg: Config, s: State, e: Event)
    requires Inv(cfg, s) && ProperEvent(cfg, e)
    ensures Inv(cfg, Step(cfg, s, e))
  {
    if !s.halted {
      match e
      case PrimeDelivery(m) => OnPrimeInv(cfg, s, m);
      case MasterReply(r) => OnMasterInv(cfg, s, r);
      case ShareArrival(sender, sh) =>
        if cfg.cc {
          InsertInv(cfg, s, s.recvd, sh, sender, false);
        }
      case StateArrival(sender, st) => OnStateInv(cfg, s, sender, st);
      case LinkCredit(n) =>
    }
  }

  /** Every run keeps the queues sorted, duplicate-free and ahead of `applied`,
      counts exact, finals backed by f + 1 shares, consumption gap-free, agreement
      exact, and signs increasing ordinals. */
  lemma {:induction false} RunInv(cfg: Config, es: seq<Event>)
    requires cfg.Valid() && forall i | 0 <= i < |es| :: ProperEvent(cfg, es[i])
    ensures Inv(cfg, Run(cfg, es))
    decreases |es|
  {
    if es == [] {
      InitialInv(cfg);
    } else {
      RunInv(cfg, es[..|es| - 1]);
      StepInv(cfg, Run(cfg, es[..|es| - 1]), es[|es| - 1]);
    }
  }

  /** Gap-free delivery.  In every run the ordinals a replica consumes form a
      chain of consecutive ones, broken only by forward jumps of completed state
      transfers; none is consumed twice or after a later one; consumption never
      runs ahead of Prime, and in a control center it stands where `applied` says. */
  lemma GapFreeDelivery(cfg: Config, es: seq<Event>)
    requires cfg.Valid() && forall i | 0 <= i < |es| :: ProperEvent(cfg, es[i])
    ensures var s := Run(cfg, es);
            && (forall i | 0 <= i < |s.consumed| ::
                  var prev := if i == 0 then ZERO else s.consumed[i - 1].ord;
                  if s.consumed[i].Jumped? then Less(prev, s.consumed[i].ord) else Consec(prev, s.consumed[i].ord))
            && (forall i, j | 0 <= i < j < |s.consumed| :: Less(s.consumed[i].ord, s.consumed[j].ord))
            && !Less(s.recvd, s.applied)
            && (cfg.cc ==> s.applied == Last(ZERO, s.consumed))
  {
    RunInv(cfg, es);
    var cs := Run(cfg, es).consumed;
    forall i | 0 <= i < |cs|
      ensures var prev := if i == 0 then ZERO else cs[i - 1].ord;
              if cs[i].Jumped? then Less(prev, cs[i].ord) else Consec(prev, cs[i].ord)
    {
      assert Link(Last(ZERO, cs[..i]), cs[i]);
    }
    forall i, j | 0 <= i < j < |cs| ensures Less(cs[i].ord, cs[j].ord) {
      ChainIncreases(ZERO, cs, i, j);
    }
  }

  /** The TC queue in every run: strictly sorted and ahead of `applied`, counts
      exact, and a finished slot holds the replica's own share and either nothing
      to deliver or a final that verifies, made of at least f + 1 stored shares
      on one and the same ordinal. */
  lemma TcQueueInRuns(cfg: Config, es: seq<Event>, i: nat)
    requires cfg.Valid() && forall j | 0 <= j < |es| :: ProperEvent(cfg, es[j])
    requires i < |Run(cfg, es).tcq|
    ensures var s := Run(cfg, es);
            var b := s.tcq[i].body;
            && (forall j | i < j < |s.tcq| :: Less(s.tcq[i].ord, s.tcq[j].ord))
            && Less(s.applied, s.tcq[i].ord)
            && b.count == |b.recvd|
            && (b.done ==> cfg.me in b.recvd)
            && (b.done && !b.skip ==>
                  && b.tcf.Some? && VerifyThresh(cfg.f, b.tcf.value) && |b.tcf.value.sig| >= cfg.f + 1
                  && forall n | n in b.tcf.value.sig ::
                       n in b.recvd && n in b.shares && b.shares[n].ord == b.tcf.value.ord
                           && b.shares[n].sig == b.tcf.value.sig[n])
  {
    RunInv(cfg, es);
  }

  /** State agreement in every run: a slot is agreed exactly when f + 1 distinct
      peers reported one state, and that state is the one it holds. */
  lemma AgreementInRuns(cfg: Config, es: seq<Event>, i: nat)
    requires cfg.Valid() && forall j | 0 <= j < |es| :: ProperEvent(cfg, es[j])
    requires i < |Run(cfg, es).stq|
    ensures var b := Run(cfg, es).stq[i].body;
            && (b.collected <==> exists st :: |Reporting(b.states, st)| >= cfg.f + 1)
            && (b.collected ==> b.result.Some? && b.result.value in b.states
                                && |Reporting(b.states, b.states[b.result.value])| >= cfg.f + 1)
  {
    RunInv(cfg, es);
    var b := Run(cfg, es).stq[i].body;
    AgreementExact(cfg, Run(cfg, es).stq[i]);
    forall st ensures Agreed(cfg, b, st) <==> |Reporting(b.states, st)| >= cfg.f + 1 {
    }
  }
}
