/** No ordinal is forgotten: what a control-center replica has taken up and not
    yet consumed waits for its master's answer or carries its own share, so
    delivery waits for nothing else than that answer or other replicas' shares. */
module Waiting {
  import opened Ordinals
  import opened Packets
  import opened Slots
  import opened ItrcSpec
  import opened TcInvariants
  import opened StInvariants
  import opened ReplicaInvariants
  import opened TransferInvariants
  import Delivery

  predicate OwnAt(me: nat, q: seq<TcSlot>, o: Ordinal) {
    exists k | 0 <= k < |q| :: Same(q[k].ord, o) && me in q[k].body.recvd
  }

  predicate InQueue(os: seq<Ordinal>, o: Ordinal) {
    exists k | 0 <= k < |os| :: Same(os[k], o)
  }

  // Every ordinal after `applied` and up to `at` is queued for an answer or has
  // the replica's own share.
  ghost predicate Covered(cfg: Config, tot: nat -> nat, s: State, at: Ordinal) {
    cfg.cc && !s.collecting ==>
      forall o | Proper(tot, o) && Less(s.applied, o) && !Less(at, o) :: OwnAt(cfg.me, s.tcq, o) || InQueue(s.ordq, o)
  }

  // A request for a state gives its ordinal an empty slot at once.
  predicate RequestsOwn(cfg: Config, s: State, at: Ordinal) {
    cfg.cc ==>
      forall k | 0 <= k < |s.toSm| && s.toSm[k].StateRequest? ::
        !Less(at, s.toSm[k].at) && (Less(s.applied, s.toSm[k].at) ==> OwnAt(cfg.me, s.tcq, s.toSm[k].at))
  }

  ghost predicate Accounted(cfg: Config, tot: nat -> nat, s: State, at: Ordinal) {
    Covered(cfg, tot, s, at) && RequestsOwn(cfg, s, at)
  }

  // Between two states the own shares not yet consumed stay.
  ghost predicate OwnKept(me: nat, s: State, r: State) {
    && !Less(r.applied, s.applied)
    && forall o | OwnAt(me, s.tcq, o) && Less(r.applied, o) :: OwnAt(me, r.tcq, o)
  }

  // ---- The TC queue ------------------------------------------------------------------

  lemma {:induction false} ReadyKeepsOwn(cfg: Config, applied: Ordinal, bound: Ordinal, q: seq<TcSlot>)
    requires TcInv(cfg, applied, bound, q)
    ensures var r := ReadyDeliver(cfg, applied, q);
            && !Less(r.applied, applied)
            && forall o | OwnAt(cfg.me, q, o) && Less(r.applied, o) :: OwnAt(cfg.me, r.rest, o)
    decreases |q|
  {
    hide TcSlotInv;
    if FrontReady(cfg, applied, q) {
      assert TcInv(cfg, q[0].ord, bound, q[1..]);
      forall o | OwnAt(cfg.me, q, o) && Less(q[0].ord, o) ensures OwnAt(cfg.me, q[1..], o) {
        var k :| 0 <= k < |q| && Same(q[k].ord, o) && cfg.me in q[k].body.recvd;
        assert q[1..][k - 1] == q[k];
      }
      if q[0].body.skip {
        ReadyKeepsOwn(cfg, q[0].ord, bound, q[1..]);
      }
    }
  }

  lemma {:induction false} DrainKeepsOwn(cfg: Config, bound: Ordinal, s: State)
    requires DrainKeeps(cfg, bound, s)
    ensures OwnKept(cfg.me, s, Drain(cfg, s))
    decreases |s.tcq|
  {
    hide TcInv, ConsumedOk, AllVerify, ReadyDeliver, OwnAt;
    ReadyKeepsOwn(cfg, s.applied, bound, s.tcq);
    ReadyDeliverInv(cfg, s.applied, bound, s.tcq);
    PassInv(cfg, bound, s);
    var r := ReadyDeliver(cfg, s.applied, s.tcq);
    if r.ready {
      var s2 := SendFinal(AfterPass(cfg, s), r.out);
      SendInv(cfg, bound, AfterPass(cfg, s), r.out);
      if s.credit > 0 {
        DrainKeepsOwn(cfg, bound, s2);
      }
    }
  }

  // Inserting keeps own shares, and an own one is there afterwards.
  lemma InsertTcOwn(cfg: Config, applied: Ordinal, bound: Ordinal, q: seq<TcSlot>, sh: ShareMsg,
                    sender: nat, skip: bool)
    requires TcInv(cfg, applied, bound, q)
    ensures var r := InsertTc(cfg, applied, q, sh, sender, skip);
            && (forall o | OwnAt(cfg.me, q, o) :: OwnAt(cfg.me, r, o))
            && (sender == cfg.me && Less(applied, sh.ord) ==> OwnAt(cfg.me, r, sh.ord))
  {
    hide RecordShare, TcSlotInv, Position, Ensure;
    if Less(applied, sh.ord) {
      EnsureSorted(q, sh.ord, BLANK_TC);
      BlankTcInv(cfg, sh.ord);
      var q1, k := Ensure(q, sh.ord, BLANK_TC), Position(q, sh.ord);
      var r := InsertTc(cfg, applied, q, sh, sender, skip);
      assert TcSlotInv(cfg, q1[k]) by { EnsureTcInv(cfg, applied, bound, q, sh.ord); }
      RecordedOwn(cfg, q1[k], sh, sender, skip);
      assert r[k].body == RecordShare(cfg, q1[k].body, sh, sender, skip) && Same(r[k].ord, sh.ord);
      forall o | OwnAt(cfg.me, q, o) ensures OwnAt(cfg.me, r, o) {
        var j :| 0 <= j < |q| && Same(q[j].ord, o) && cfg.me in q[j].body.recvd;
        var j' := if Has(q, sh.ord) || j < k then j else j + 1;
        assert q1[j'] == q[j];
        assert Same(r[j'].ord, o) && cfg.me in r[j'].body.recvd;
      }
    }
  }

  lemma RecordedOwn(cfg: Config, slot: TcSlot, sh: ShareMsg, sender: nat, skip: bool)
    requires TcSlotInv(cfg, slot)
    ensures var r := RecordShare(cfg, slot.body, sh, sender, skip);
            slot.body.recvd <= r.recvd && (sender == cfg.me ==> cfg.me in r.recvd)
  {
    hide ConstructFinal;
  }

  lemma InsertOwn(cfg: Config, s: State, at: Ordinal, sh: ShareMsg, sender: nat, skip: bool)
    requires ChannelInv(cfg, s, at) && cfg.cc && cfg.IsReplica(sender)
    requires skip ==> sender == cfg.me
    requires sender == cfg.me ==> !Less(at, sh.ord)
    ensures var r := InsertAndDrain(cfg, s, sh, sender, skip);
            && OwnKept(cfg.me, s, r)
            && (sender == cfg.me && Less(r.applied, sh.ord) ==> OwnAt(cfg.me, r.tcq, sh.ord))
  {
    hide TcInv, ConsumedOk, AllVerify, SignedOk, InsertTc, Drain, OwnAt;
    InsertTcInv(cfg, s.applied, at, s.tcq, sh, sender, skip);
    InsertTcOwn(cfg, s.applied, at, s.tcq, sh, sender, skip);
    DrainKeepsOwn(cfg, at, s.(tcq := InsertTc(cfg, s.applied, s.tcq, sh, sender, skip)));
  }

  // ---- One Prime ordinal ---------------------------------------------------------------

  lemma SkipPartOwn(cfg: Config, s: State, o: Ordinal, u: Update)
    requires InvAt(cfg, s, o)
    ensures var r := SkipPart(cfg, s, o, u);
            && OwnKept(cfg.me, s, r)
            && (cfg.cc && EmptySlot(cfg, s, u) && Less(r.applied, o) ==> OwnAt(cfg.me, r.tcq, o))
  {
    hide ChannelInv, StInv, InsertAndDrain, OwnAt, EmptySlot;
    if EmptySlot(cfg, s, u) && cfg.cc {
      InsertOwn(cfg, s, o, ShareMsg(o, NoPayload, Junk), cfg.me, true);
    }
  }

  // What was accounted for stays so when shares are inserted and delivered.
  lemma KeptAccounted(cfg: Config, tot: nat -> nat, s: State, r: State, at: Ordinal)
    requires Accounted(cfg, tot, s, at) && OwnKept(cfg.me, s, r)
    requires r.ordq == s.ordq && r.toSm == s.toSm && r.collecting == s.collecting
    ensures Accounted(cfg, tot, r, at)
  {
    hide OwnAt, InQueue;
  }

  // The next ordinal extends what is covered by itself alone.
  lemma NextCovered(cfg: Config, tot: nat -> nat, s: State, at: Ordinal, o: Ordinal)
    requires Covered(cfg, tot, s, at) && ProperOrZero(tot, at) && Proper(tot, o) && Consec(at, o)
    requires cfg.cc && !s.collecting && Less(s.applied, o) ==> OwnAt(cfg.me, s.tcq, o) || InQueue(s.ordq, o)
    ensures Covered(cfg, tot, s, o)
  {
    forall x | cfg.cc && !s.collecting && Proper(tot, x) && Less(s.applied, x) && !Less(o, x)
      ensures OwnAt(cfg.me, s.tcq, x) || InQueue(s.ordq, x)
    {
      if Less(at, x) {
        if Less(x, o) {
          ConsecIsAdjacent(tot, at, x, o);
        }
        assert Same(x, o) && x == o;
      }
    }
  }

  lemma ForwardAccounted(cfg: Config, tot: nat -> nat, s: State, at: Ordinal, o: Ordinal, u: Update, dup: bool)
    requires Accounted(cfg, tot, s, at) && ProperOrZero(tot, at) && Proper(tot, o) && Consec(at, o) && !s.collecting
    requires !TransferForMe(cfg, u) && (dup ==> u.FromClient())
    requires var empty := !ValidFromPrime(cfg, u) || u.NoOp? || u.StateTransfer? || u.SystemReset? || dup;
             cfg.cc && empty && Less(s.applied, o) ==> OwnAt(cfg.me, s.tcq, o)
    ensures Accounted(cfg, tot, ForwardPart(cfg, s, o, u, dup), o)
  {
    hide OwnAt;
    var r := ForwardPart(cfg, s, o, u, dup);
    forall x | InQueue(s.ordq, x) ensures InQueue(r.ordq, x) {
      var k :| 0 <= k < |s.ordq| && Same(s.ordq[k], x);
      assert r.ordq[k] == s.ordq[k];
    }
    if r.ordq != s.ordq {
      assert r.ordq[|s.ordq|] == o;
    }
    NextCovered(cfg, tot, r, at, o);
  }

  lemma AdmitAccounted(cfg: Config, tot: nat -> nat, s: State, o: Ordinal, u: Update)
    requires Inv(cfg, s) && !s.halted && !s.collecting && Less(s.recvd, o)
    requires Accounted(cfg, tot, s, s.recvd) && ProperOrZero(tot, s.recvd) && Proper(tot, o)
    requires Admissible(cfg, s, o, u)
    ensures var r := Admit(cfg, s, o, u); Accounted(cfg, tot, r, o)
  {
    hide ChannelInv, StInv, Accounted, OwnAt, ForwardPart, TransferPart, SkipPart, ValidFromPrime;
    AdvanceInv(cfg, s, s.recvd, o);
    SkipPartInv(cfg, s, o, u);
    SkipPartOwn(cfg, s, o, u);
    var s1 := SkipPart(cfg, s, o, u);
    KeptAccounted(cfg, tot, s, s1, s.recvd);
    if TransferForMe(cfg, u) {
      AppliedBehind(cfg, s1, o);
      TransferAccounted(cfg, tot, s1, o);
      TakeUpInv(cfg, s, o, u);
      var t := TransferPart(cfg, s1, o);
      RecvdApart(cfg, tot, t, o, o);
      NothingForwarded(cfg, t.(recvd := o), o, u, Duplicate(cfg, s, u));
    } else {
      RecvdApart(cfg, tot, s1, s.recvd, o);
      ForwardAccounted(cfg, tot, s1.(recvd := o), s.recvd, o, u, Duplicate(cfg, s, u));
    }
  }

  lemma NothingForwarded(cfg: Config, s: State, o: Ordinal, u: Update, dup: bool)
    requires TransferForMe(cfg, u)
    ensures ForwardPart(cfg, s, o, u, dup) == s
  {
  }

  lemma AppliedBehind(cfg: Config, s: State, o: Ordinal)
    requires InvAt(cfg, s, o)
    ensures !Less(o, s.applied)
  {
  }

  lemma RecvdApart(cfg: Config, tot: nat -> nat, s: State, at: Ordinal, o: Ordinal)
    requires Accounted(cfg, tot, s, at)
    ensures Accounted(cfg, tot, s.(recvd := o), at)
  {
    hide OwnAt, InQueue;
  }

  lemma TransferAccounted(cfg: Config, tot: nat -> nat, s: State, o: Ordinal)
    requires Accounted(cfg, tot, s, s.recvd) && !s.collecting && Less(s.recvd, o) && Proper(tot, o)
    requires ProperOrZero(tot, s.recvd) && !Less(o, s.applied)
    requires cfg.cc && Less(s.applied, o) ==> OwnAt(cfg.me, s.tcq, o)
    ensures Accounted(cfg, tot, TransferPart(cfg, s, o), o)
  {
    hide OwnAt, InQueue, InsertSt, AgreedState, DropUpTo;
    if Consec(s.recvd, o) {
      NextCovered(cfg, tot, s, s.recvd, o);
    }
  }

  lemma ProcessPrimeAccounted(cfg: Config, tot: nat -> nat, s: State, m: PrimeMsg)
    requires Inv(cfg, s) && !s.halted && Less(s.recvd, m.ord)
    requires Accounted(cfg, tot, s, s.recvd) && ProperOrZero(tot, s.recvd) && Proper(tot, m.ord)
    ensures var r := ProcessPrime(cfg, s, m); Accounted(cfg, tot, r, r.recvd)
  {
    hide InvAt, OwnAt, InQueue, Admit;
    if !s.collecting && Admissible(cfg, s, m.ord, m.update) {
      AdmitAccounted(cfg, tot, s, m.ord, m.update);
      ProcessPrimeInv(cfg, s, m);
      AdmitMoves(cfg, s, m.ord, m.update);
    }
  }

  lemma AdmitMoves(cfg: Config, s: State, o: Ordinal, u: Update)
    requires !Admit(cfg, s, o, u).halted
    ensures Admit(cfg, s, o, u).recvd == o
  {
    hide TakeUp, Duplicate;
  }

  lemma {:induction false} ReplayAccounted(cfg: Config, tot: nat -> nat, s: State)
    requires Inv(cfg, s) && TransferInv(cfg, tot, s) && !s.halted && Accounted(cfg, tot, s, s.recvd)
    ensures var r := Replay(cfg, s); Accounted(cfg, tot, r, r.recvd)
    decreases |s.pending|
  {
    hide ChannelInv, StInv, OwnAt, InQueue, ProcessPrime, SlotTotals, QueueTotals, SignaledAt, Blocked;
    if s.pending != [] && !s.collecting {
      var m := s.pending[0];
      if Less(s.recvd, m.ord) {
        ProcessPrimeInv(cfg, s, m);
        ProcessPrimeTransfer(cfg, tot, s, m);
        ProcessPrimeAccounted(cfg, tot, s, m);
      }
      var s1 := if Less(s.recvd, m.ord) then ProcessPrime(cfg, s, m) else s;
      Delivery.ShorterInv(cfg, s1);
      ShorterApart(cfg, tot, s1);
      ReplayAccounted(cfg, tot, s1.(pending := s1.pending[1..]));
    }
  }

  lemma ShorterApart(cfg: Config, tot: nat -> nat, s: State)
    requires TransferInv(cfg, tot, s) && s.pending != []
    ensures TransferInv(cfg, tot, s.(pending := s.pending[1..]))
  {
    hide OwnSlotsBlocked, QueueBlocked, SlotTotals, QueueTotals, SignaledAt;
  }

  lemma FinishAccounted(cfg: Config, tot: nat -> nat, s: State)
    requires Inv(cfg, s) && TransferInv(cfg, tot, s) && !s.halted && Accounted(cfg, tot, s, s.recvd)
    ensures var r := Finish(cfg, s); Accounted(cfg, tot, r, r.recvd)
  {
    hide TcInv, StInv, OwnAt, InQueue, OwnSlotsBlocked, QueueBlocked, SlotTotals, QueueTotals, SignaledAt;
    if s.completed && !s.collecting {
      ReplayAccounted(cfg, tot, s.(completed := false));
    }
  }

  // ---- Events ----------------------------------------------------------------------------

  // A packed state answers a request for one.
  predicate InKind(s: State, e: Event) {
    e.MasterReply? && e.reply.PackedState? && s.ordq != [] ==>
      exists k | 0 <= k < |s.toSm| :: s.toSm[k].StateRequest? && Same(s.toSm[k].at, s.ordq[0])
  }

  lemma OnPrimeAccounted(cfg: Config, tot: nat -> nat, s: State, m: PrimeMsg)
    requires Inv(cfg, s) && TransferInv(cfg, tot, s) && !s.halted && Accounted(cfg, tot, s, s.recvd)
    requires m.update.SystemReset? || Proper(tot, m.ord)
    ensures var r := OnPrime(cfg, s, m); Accounted(cfg, tot, r, r.recvd)
  {
    hide InvAt, OwnAt, InQueue, ProcessPrime, Finish, Blocked, SignaledAt, SlotTotals, QueueTotals, BufferTotals;
    if !m.update.SystemReset? {
      var s1 := NoteFirst(s, m.ord);
      NoteFirstInv(cfg, s, m.ord);
      FirstApart(cfg, tot, s, m.ord);
      if Less(s1.recvd, m.ord) {
        ProcessPrimeInv(cfg, s1, m);
        ProcessPrimeTransfer(cfg, tot, s1, m);
        ProcessPrimeAccounted(cfg, tot, s1, m);
        FinishAccounted(cfg, tot, ProcessPrime(cfg, s1, m));
      }
    }
  }

  lemma FirstApart(cfg: Config, tot: nat -> nat, s: State, o: Ordinal)
    requires TransferInv(cfg, tot, s)
    ensures TransferInv(cfg, tot, NoteFirst(s, o))
  {
    hide OwnSlotsBlocked, QueueBlocked, SlotTotals, QueueTotals, SignaledAt;
  }

  // The front ordinal leaves the queue; the caller sees to it that it is covered.
  lemma PoppedAccounted(cfg: Config, tot: nat -> nat, s: State, r: State, at: Ordinal)
    requires Accounted(cfg, tot, s, at) && s.ordq != [] && r.ordq == s.ordq[1..]
    requires r.toSm == s.toSm && r.collecting == s.collecting && OwnKept(cfg.me, s, r)
    requires cfg.cc && Less(r.applied, s.ordq[0]) ==> OwnAt(cfg.me, r.tcq, s.ordq[0])
    ensures Accounted(cfg, tot, r, at)
  {
    forall o | cfg.cc && !s.collecting && Proper(tot, o) && Less(r.applied, o) && !Less(at, o)
      ensures OwnAt(cfg.me, r.tcq, o) || InQueue(r.ordq, o)
    {
      assert Less(s.applied, o);
      if !OwnAt(cfg.me, s.tcq, o) {
        var k :| 0 <= k < |s.ordq| && Same(s.ordq[k], o);
        if k > 0 {
          assert r.ordq[k - 1] == s.ordq[k];
        } else {
          OwnSame(cfg.me, r.tcq, s.ordq[0], o);
        }
      }
    }
  }

  lemma OwnSame(me: nat, q: seq<TcSlot>, o: Ordinal, o': Ordinal)
    requires Same(o, o') && OwnAt(me, q, o)
    ensures OwnAt(me, q, o')
  {
  }

  lemma OnMasterAccounted(cfg: Config, tot: nat -> nat, s: State, reply: SmReply)
    requires Inv(cfg, s) && !s.halted && Accounted(cfg, tot, s, s.recvd) && InKind(s, MasterReply(reply))
    ensures var r := OnMaster(cfg, s, reply); Accounted(cfg, tot, r, r.recvd)
  {
    hide TcInv, StInv, ConsumedOk, AllVerify, OwnAt, InsertAndDrain;
    if s.ordq != [] {
      var o := s.ordq[0];
      var s1 := s.(ordq := s.ordq[1..]);
      match reply
      case PackedState(_, _, _, _) =>
        var k :| 0 <= k < |s.toSm| && s.toSm[k].StateRequest? && Same(s.toSm[k].at, o);
        if cfg.cc && Less(s.applied, o) {
          OwnSame(cfg.me, s.tcq, s.toSm[k].at, o);
        }
        PoppedAccounted(cfg, tot, s, OnMaster(cfg, s, reply), s.recvd);
      case Scada(p) =>
        var sh := ShareMsg(o, p, Genuine(cfg.me, o, p));
        var s2 := s1.(shares := s.shares + [sh]);
        if cfg.cc {
          assert ChannelInv(cfg, s2, s.recvd);
          InsertOwn(cfg, s2, s.recvd, sh, cfg.me, false);
          PoppedAccounted(cfg, tot, s, InsertAndDrain(cfg, s2, sh, cfg.me, false), s.recvd);
        }
    }
  }

  lemma OnShareAccounted(cfg: Config, tot: nat -> nat, s: State, sender: nat, sh: ShareMsg)
    requires Inv(cfg, s) && Accounted(cfg, tot, s, s.recvd) && cfg.IsReplica(sender) && sender != cfg.me
    ensures var r := OnShare(cfg, s, sender, sh); Accounted(cfg, tot, r, r.recvd)
  {
    hide ChannelInv, StInv, OwnAt, InQueue, InsertAndDrain;
    if cfg.cc {
      InsertOwn(cfg, s, s.recvd, sh, sender, false);
      KeptAccounted(cfg, tot, s, InsertAndDrain(cfg, s, sh, sender, false), s.recvd);
    }
  }

  lemma OnStateAccounted(cfg: Config, tot: nat -> nat, s: State, sender: nat, st: StateXfer)
    requires Inv(cfg, s) && TransferInv(cfg, tot, s) && !s.halted && cfg.IsReplica(sender) && sender != cfg.me
    requires Accounted(cfg, tot, s, s.recvd) && Proper(tot, st.ord)
    ensures var r := OnState(cfg, s, sender, st); Accounted(cfg, tot, r, r.recvd)
  {
    hide ChannelInv, StInv, StInvMid, Complete, Apply, Finish, InsertSt, OwnAt, InQueue, Totals, Blocked, SignaledAt;
    InsertStInv(cfg, s.recvd, s.applied, s.stq, s.collecting, s.recvd, st, sender);
    if s.collecting {
      SignalStays(cfg, s.recvd, s.applied, s.stq, s.collecting, s.recvd, st, sender);
    }
    var (q, complete) := InsertSt(cfg, s.recvd, s.applied, s.stq, st, sender);
    var s1 := s.(stq := q);
    OtherSlots(cfg, tot, s, q);
    if complete {
      ApplyInv(cfg, s1, st.ord, s.recvd);
      ApplyTransferred(cfg, tot, s1, st.ord);
      ApplyAccounted(cfg, tot, s1, st.ord);
      FinishAccounted(cfg, tot, Apply(cfg, s1, st.ord));
    } else {
      FinishAccounted(cfg, tot, s1);
    }
  }

  lemma ApplyAccounted(cfg: Config, tot: nat -> nat, s: State, o: Ordinal)
    requires RequestsOwn(cfg, s, s.recvd) && Same(o, s.recvd) && !Apply(cfg, s, o).halted
    ensures var r := Apply(cfg, s, o); r.recvd == s.recvd && Accounted(cfg, tot, r, r.recvd)
  {
    hide OwnAt, InQueue, AgreedState, DropUpTo;
  }

  lemma StepAccounted(cfg: Config, tot: nat -> nat, s: State, e: Event)
    requires Inv(cfg, s) && TransferInv(cfg, tot, s) && ProperEvent(cfg, e) && ProperTotals(tot, e) && InKind(s, e)
    requires Accounted(cfg, tot, s, s.recvd)
    ensures var r := Step(cfg, s, e); Accounted(cfg, tot, r, r.recvd)
  {
    hide InvAt, TransferInv, OwnAt, InQueue, OnPrime, OnMaster, OnShare, OnState, InKind;
    if !s.halted {
      match e
      case PrimeDelivery(m) => OnPrimeAccounted(cfg, tot, s, m);
      case MasterReply(r) => OnMasterAccounted(cfg, tot, s, r);
      case ShareArrival(sender, sh) => OnShareAccounted(cfg, tot, s, sender, sh);
      case StateArrival(sender, st) => OnStateAccounted(cfg, tot, s, sender, st);
      case LinkCredit(_) =>
    }
  }

  // ---- Theorem -----------------------------------------------------------------------------

  // Events whose totals are Prime's and whose packed states answer requests for them.
  predicate Orderly(cfg: Config, tot: nat -> nat, es: seq<Event>) {
    forall i | 0 <= i < |es| ::
      ProperEvent(cfg, es[i]) && ProperTotals(tot, es[i]) && InKind(Run(cfg, es[..i]), es[i])
  }

  lemma {:induction false} RunAccounted(cfg: Config, tot: nat -> nat, es: seq<Event>)
    requires cfg.Valid() && Orderly(cfg, tot, es)
    ensures var s := Run(cfg, es); Accounted(cfg, tot, s, s.recvd)
    decreases |es|
  {
    hide InvAt, TransferInv, Step, InKind;
    if es != [] {
      var init, e := es[..|es| - 1], es[|es| - 1];
      forall i | 0 <= i < |init| ensures init[..i] == es[..i] && init[i] == es[i] {
      }
      RunAccounted(cfg, tot, init);
      RunInv(cfg, init);
      RunTransfer(cfg, tot, init);
      StepAccounted(cfg, tot, Run(cfg, init), e);
    }
  }

  // The next ordinal is the replica's own turn, or it lacks shares of others.
  ghost predicate WaitsFor(cfg: Config, s: State, o: Ordinal) {
    || InQueue(s.ordq, o)
    || exists k | 0 <= k < |s.tcq| ::
         && Same(s.tcq[k].ord, o) && cfg.me in s.tcq[k].body.recvd
         && !s.tcq[k].body.done && |s.tcq[k].body.recvd| <= cfg.f
  }

  // Where batches are not empty, every proper ordinal has a successor.
  function Successor(tot: nat -> nat, o: Ordinal): Ordinal {
    if o.idx < o.tot then Ordinal(o.num, o.idx + 1, o.tot) else Ordinal(o.num + 1, 1, tot(o.num + 1))
  }

  lemma SuccessorNext(tot: nat -> nat, a: Ordinal, r: Ordinal)
    requires ProperOrZero(tot, a) && Proper(tot, r) && Less(a, r) && forall n | n >= 1 :: tot(n) >= 1
    ensures Proper(tot, Successor(tot, a)) && Consec(a, Successor(tot, a)) && !Less(r, Successor(tot, a))
  {
  }

  // An own share at the next ordinal that is not finished lacks others.
  lemma OwnWaits(cfg: Config, s: State, o: Ordinal)
    requires Inv(cfg, s) && Delivery.NothingNext(s) && OwnAt(cfg.me, s.tcq, o) && Consec(s.applied, o)
    ensures WaitsFor(cfg, s, o)
  {
    hide StInv, ConsumedOk, AllVerify, SignedOk;
    var k :| 0 <= k < |s.tcq| && Same(s.tcq[k].ord, o) && cfg.me in s.tcq[k].body.recvd;
    assert TcSlotInv(cfg, s.tcq[k]);
    assert Consec(s.applied, s.tcq[k].ord);
  }

  /** Delivery waits for nothing else.  In every run of a control-center replica
      that waits for no state and lost no final: as long as it has taken up more
      than it has consumed, its master has not answered the next ordinal yet, or
      at most f replicas, itself among them, have sent their shares. */
  lemma DeliveryWaits(cfg: Config, tot: nat -> nat, es: seq<Event>)
    requires cfg.Valid() && cfg.cc && Orderly(cfg, tot, es) && forall n | n >= 1 :: tot(n) >= 1
    requires var s := Run(cfg, es); !s.collecting && s.lost == [] && Less(s.applied, s.recvd)
    ensures var s := Run(cfg, es);
            var o := Successor(tot, s.applied);
            Proper(tot, o) && Consec(s.applied, o) && !Less(s.recvd, o) && WaitsFor(cfg, s, o)
  {
    hide InvAt, Orderly, OwnAt, InQueue, WaitsFor, Delivery.NothingNext, Successor;
    var s := Run(cfg, es);
    var o := Successor(tot, s.applied);
    RunAccounted(cfg, tot, es);
    OrderlyIsProper(cfg, tot, es);
    RunInv(cfg, es);
    RunTransfer(cfg, tot, es);
    SuccessorNext(tot, s.applied, s.recvd);
    assert Less(s.applied, o) by { NextIsLater(s.applied, o); }
    Delivery.NothingHeldBack(cfg, tot, es);
    if OwnAt(cfg.me, s.tcq, o) {
      OwnWaits(cfg, s, o);
    } else {
      QueuedWaits(cfg, s, o);
    }
  }

  lemma OrderlyIsProper(cfg: Config, tot: nat -> nat, es: seq<Event>)
    requires Orderly(cfg, tot, es)
    ensures forall i | 0 <= i < |es| :: ProperEvent(cfg, es[i]) && ProperTotals(tot, es[i])
  {
  }

  lemma NextIsLater(a: Ordinal, o: Ordinal)
    requires Consec(a, o)
    ensures Less(a, o)
  {
  }

  lemma QueuedWaits(cfg: Config, s: State, o: Ordinal)
    requires InQueue(s.ordq, o)
    ensures WaitsFor(cfg, s, o)
  {
  }
}
