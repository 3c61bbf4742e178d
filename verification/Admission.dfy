/** What a replica does with one ordinal from Prime: what it asks its SCADA
    master, and what an unneeded transfer and a reset leave behind. */
module Admission {
  import opened Ordinals
  import opened Packets
  import opened Slots
  import opened ItrcSpec
  import opened StInvariants
  import opened ReplicaInvariants

  // A valid client update newer than anything seen of its client.
  predicate IsNew(s: State, u: Update) {
    u.FromClient() && ValidClient(u) && PairLess(s.progress[u.Client()], u.seqp)
  }

  /** Client messages that count: field data of one of the 17 units, in a known
      scenario and with a number, and every command and benchmark. */
  lemma ValidExactly(u: Update)
    requires u.FromClient()
    ensures ValidClient(u) <==>
              if u.RtuData? then
                u.rtuId < 17 && u.seqp.num != 0 && (u.body.Jhu? || u.body.Pnnl? || (u.body.Ems? && u.body.words[0] < 6))
              else u.HmiCommand? || u.Benchmark?
  {
  }

  // A transfer ordered for another replica.
  predicate ForOther(cfg: Config, u: Update) {
    u.StateTransfer? && u.machine != cfg.me && u.machine <= 3 * cfg.f + 2 * cfg.k + 1
  }

  /** The next ordinal is put to the SCADA master exactly when it carries a new
      valid update or a transfer for another replica, which is asked for with the
      progress reached.  The ordinal then waits for its answer, and of the progress
      only the sender's entry moves. */
  lemma AsksExactly(cfg: Config, s: State, m: PrimeMsg)
    requires Inv(cfg, s) && !s.halted && !s.collecting && Less(s.recvd, m.ord)
    ensures var r, u := ProcessPrime(cfg, s, m), m.update;
            if Consec(s.recvd, m.ord) && IsNew(s, u) then
              && r.toSm == s.toSm + [Forward(m.ord, u)] && r.ordq == s.ordq + [m.ord]
              && r.progress == s.progress[u.Client() := u.seqp] && r.recvd == m.ord
              && r.tcq == s.tcq && r.applied == s.applied
            else if Consec(s.recvd, m.ord) && ForOther(cfg, u) then
              && r.toSm == s.toSm + [StateRequest(m.ord, u.machine, s.progress)] && r.ordq == s.ordq + [m.ord]
              && r.progress == s.progress && r.recvd == m.ord
            else if Consec(s.recvd, m.ord) then
              r.toSm == s.toSm && r.ordq == s.ordq && r.progress == s.progress && r.recvd == m.ord
            else if TransferForMe(cfg, u) then r.ordq == s.ordq && r.recvd == m.ord
            else r == s
  {
    hide InvAt, Apply, InsertSt, InsertAndDrain, DropUpTo;
    if Consec(s.recvd, m.ord) || TransferForMe(cfg, m.update) {
      TakeUpInv(cfg, s, m.ord, m.update);
    }
  }

  /** What Prime delivers is processed exactly when it is later than everything
      received; then, unless a transfer has just completed, that is all. */
  lemma DeliveryExactly(cfg: Config, s: State, m: PrimeMsg)
    requires !s.halted && !m.update.SystemReset?
    ensures var r, s1 := Step(cfg, s, PrimeDelivery(m)), NoteFirst(s, m.ord);
            && (m.ord.num < s.recvd.num || (m.ord.num == s.recvd.num && m.ord.idx <= s.recvd.idx) ==> r == s1)
            && (s.recvd.num < m.ord.num || (m.ord.num == s.recvd.num && s.recvd.idx < m.ord.idx) ==>
                  !ProcessPrime(cfg, s1, m).completed ==> r == ProcessPrime(cfg, s1, m))
  {
    hide ProcessPrime, Replay;
  }

  /** A transfer the replica turns out not to need leaves the states for later
      ordinals only; a data-center replica counts the ordinal as applied. */
  lemma UnneededExactly(cfg: Config, s: State, o: Ordinal)
    requires Sorted(s.stq) && Consec(s.recvd, o)
    ensures var r := TransferPart(cfg, s, o);
            && AllAfter(r.stq, o) && |r.stq| <= |s.stq| && r.stq == s.stq[|s.stq| - |r.stq|..]
            && (forall i | 0 <= i < |s.stq| - |r.stq| :: !Less(o, s.stq[i].ord))
            && r.applied == (if cfg.cc then s.applied else o)
            && r.progress == s.progress && r.toSm == s.toSm && r.tcq == s.tcq && r.collecting == s.collecting
  {
    DropUpToShape(s.stq, o);
  }

  /** After a reset the queues are empty and nothing is counted as received, but
      an update is a duplicate exactly when it was one before, and the first
      ordinal asks for no transfer again. */
  lemma ResetRemembers(cfg: Config, s: State, u: Update, o: Ordinal)
    ensures var r := Reset(s);
            && r.tcq == [] && r.stq == [] && r.ordq == [] && r.pending == []
            && r.applied == ZERO && r.recvd == ZERO && !r.collecting && !r.completed && !r.halted
            && r.toSm == [ResetMaster]
            && (u.FromClient() && ValidClient(u) ==> (IsNew(r, u) <==> IsNew(s, u)))
            && (s.firstSeen ==> NoteFirst(r, o).injected == 0)
            && (!s.halted && u.SystemReset? && o.num == 0 ==> Step(cfg, s, PrimeDelivery(PrimeMsg(o, u))) == r)
  {
  }

  // ---- The request at the first ordinal ------------------------------------------------

  predicate NoPrime(es: seq<Event>) {
    forall i | 0 <= i < |es| :: !es[i].PrimeDelivery?
  }

  // Nothing was received from Prime yet.
  predicate Untouched(s: State) {
    s.recvd == ZERO && !s.firstSeen && s.injected == 0 && !s.collecting && !s.completed
  }

  lemma {:induction false} UntouchedBeforePrime(cfg: Config, es: seq<Event>)
    requires cfg.Valid() && NoPrime(es) && forall i | 0 <= i < |es| :: ProperEvent(cfg, es[i])
    ensures Untouched(Run(cfg, es))
    decreases |es|
  {
    hide InvAt, OnState, OnMaster, OnShare;
    if es != [] {
      var init, e := es[..|es| - 1], es[|es| - 1];
      UntouchedBeforePrime(cfg, init);
      RunInv(cfg, init);
      match e
      case StateArrival(sender, st) => EarlyStateWaits(cfg, Run(cfg, init), sender, st);
      case MasterReply(r) => AnswersApart(cfg, Run(cfg, init), r);
      case ShareArrival(sender, sh) => SharesApart(cfg, Run(cfg, init), sender, sh);
      case _ =>
    }
  }

  lemma EarlyStateWaits(cfg: Config, s: State, sender: nat, st: StateXfer)
    requires Inv(cfg, s) && Untouched(s) && cfg.IsReplica(sender) && sender != cfg.me
    ensures Untouched(OnState(cfg, s, sender, st))
  {
    InsertStInv(cfg, s.recvd, s.applied, s.stq, s.collecting, s.recvd, st, sender);
  }

  lemma AnswersApart(cfg: Config, s: State, reply: SmReply)
    requires Untouched(s)
    ensures Untouched(OnMaster(cfg, s, reply))
  {
  }

  lemma SharesApart(cfg: Config, s: State, sender: nat, sh: ShareMsg)
    requires Untouched(s)
    ensures Untouched(OnShare(cfg, s, sender, sh))
  {
  }

  /** Whatever else arrived before it, the first ordinal from Prime asks for a
      state transfer exactly when it is not the very first of the stream. */
  lemma FirstOrdinalExactly(cfg: Config, es: seq<Event>, m: PrimeMsg)
    requires cfg.Valid() && NoPrime(es) && (forall i | 0 <= i < |es| :: ProperEvent(cfg, es[i]))
    requires !Run(cfg, es).halted && !m.update.SystemReset?
    ensures Run(cfg, es + [PrimeDelivery(m)]).injected == if m.ord.num <= 1 && m.ord.idx == 1 then 0 else 1
  {
    hide ProcessPrime, Finish;
    UntouchedBeforePrime(cfg, es);
    assert (es + [PrimeDelivery(m)])[..|es|] == es;
    var s := NoteFirst(Run(cfg, es), m.ord);
    ProcessKeepsInjected(cfg, s, m);
    FinishKeepsInjected(cfg, ProcessPrime(cfg, s, m));
  }

  lemma ProcessKeepsInjected(cfg: Config, s: State, m: PrimeMsg)
    ensures ProcessPrime(cfg, s, m).injected == s.injected
  {
    hide SkipPart, TransferPart, ValidFromPrime, Duplicate;
    TransferKeepsInjected(cfg, SkipPart(cfg, s, m.ord, m.update), m.ord);
  }

  lemma TransferKeepsInjected(cfg: Config, s: State, o: Ordinal)
    ensures TransferPart(cfg, s, o).injected == s.injected
  {
    hide InsertSt, AgreedState, DropUpTo;
  }

  lemma {:induction false} ReplayKeepsInjected(cfg: Config, s: State)
    ensures Replay(cfg, s).injected == s.injected
    decreases |s.pending|
  {
    hide ProcessPrime;
    if s.pending != [] && !s.collecting && !s.halted {
      var m := s.pending[0];
      ProcessKeepsInjected(cfg, s, m);
      var s1 := if Less(s.recvd, m.ord) then ProcessPrime(cfg, s, m) else s;
      ReplayKeepsInjected(cfg, s1.(pending := s1.pending[1..]));
    }
  }

  lemma FinishKeepsInjected(cfg: Config, s: State)
    ensures Finish(cfg, s).injected == s.injected
  {
    ReplayKeepsInjected(cfg, s.(completed := false));
  }
}
