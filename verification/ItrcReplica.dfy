/** The replica as the source runs it: globals updated in place by loops over
    linked queues.  Every method does to the globals what the specification's
    function does to the state they stand for. */
module ItrcReplica {
  import opened Ordinals
  import opened Packets
  import opened Slots
  import opened LinkedQueue
  import opened ItrcSpec
  import opened TcInvariants
  import opened StInvariants
  import opened ReplicaInvariants
  import QueueOps

  // What a replica put out since the last reset, and which ordinals it consumed.
  datatype Sent = Sent(toSm: seq<SmMsg>, finals: seq<TcFinal>, lost: seq<TcFinal>, shares: seq<ShareMsg>,
                       states: seq<StateXfer>, consumed: seq<Consumed>, injected: nat)

  const NOTHING := Sent([], [], [], [], [], [], 0)

  class Replica {
    const cfg: Config
    const tcq: OrderedQueue<TcBody>
    const stq: OrderedQueue<StBody>
    const progress: array<SeqPair>
    var applied: Ordinal
    var recvd: Ordinal
    var ordq: seq<Ordinal>
    var pending: seq<PrimeMsg>
    var collecting: bool
    var completed: bool
    var firstSeen: bool
    var halted: bool
    var credit: nat
    ghost var sent: Sent

    ghost predicate Valid()
      reads this, tcq, tcq.Repr, stq, stq.Repr
    {
      && tcq.Valid() && stq.Valid() && progress.Length == NUM_CLIENTS
      && Sorted(tcq.Contents()) && Sorted(stq.Contents()) && QueueOps.Reporters(cfg, stq.Contents())
      && tcq in tcq.Repr && stq in stq.Repr && tcq.Repr !! stq.Repr && {this, progress} !! tcq.Repr + stq.Repr
    }

    ghost function Repr(): set<object>
      reads this, tcq, stq
    {
      {this, progress} + tcq.Repr + stq.Repr
    }

    // The state these globals stand for.
    ghost function Abs(): State
      reads this, progress, tcq, tcq.Repr, stq, stq.Repr
      requires Valid()
    {
      State(tcq.Contents(), stq.Contents(), applied, recvd, ordq, pending, collecting, completed, progress[..],
            firstSeen, halted, credit,
            sent.toSm, sent.finals, sent.lost, sent.shares, sent.states, sent.consumed, sent.injected)
    }

    constructor (cfg: Config)
      ensures Valid() && fresh(Repr()) && this.cfg == cfg && Abs() == Initial()
    {
      this.cfg := cfg;
      tcq := new OrderedQueue(BLANK_TC);
      stq := new OrderedQueue(BLANK_ST);
      progress := new SeqPair[NUM_CLIENTS](_ => SeqPair(0, 0));
      applied, recvd, ordq, pending := ZERO, ZERO, [], [];
      collecting, completed, firstSeen, halted, credit := false, false, false, false, 0;
      sent := NOTHING;
      new;
      assert progress[..] == NoProgress();
    }

    // Hands one final to the external link, or loses it with the link.
    method SendFinal(out: Option<TcFinal>)
      requires Valid()
      modifies this`credit, this`sent
      ensures Valid() && Abs() == ItrcSpec.SendFinal(old(Abs()), out)
    {
      hide OrderedQueue.Linked, OrderedQueue.Contents, QueueOps.Reporters, Sorted;
      if out.Some? {
        if credit == 0 {
          sent := sent.(lost := sent.lost + [out.value]);
        } else {
          credit, sent := credit - 1, sent.(finals := sent.finals + [out.value]);
        }
      }
    }

    method TakeReady() returns (out: Option<TcFinal>, ready: bool)
      requires Valid()
      modifies this`applied, this`sent, tcq.Repr
      ensures Valid() && Repr() == old(Repr())
      ensures var r := ItrcSpec.ReadyDeliver(cfg, old(Abs()).applied, old(Abs()).tcq);
              && out == r.out && ready == r.ready && Abs() == AfterPass(cfg, old(Abs()))
      ensures ready ==> tcq.size < old(tcq.size)
    {
      hide ItrcSpec.ReadyDeliver, OrderedQueue.Linked, OrderedQueue.Contents, QueueOps.Reporters, Sorted;
      ghost var taken;
      out, ready, applied, taken := QueueOps.ReadyDeliver(cfg, applied, tcq);
      sent := sent.(consumed := sent.consumed + taken);
    }

    // The delivery loop: finals go out until none is ready or the link fails.
    method DeliverAll()
      requires Valid()
      modifies this, tcq.Repr
      ensures Valid() && Repr() == old(Repr()) && Abs() == Drain(cfg, old(Abs()))
    {
      hide Drain, OrderedQueue.Linked, OrderedQueue.Contents, QueueOps.Reporters, Sorted;
      ghost var s := Abs();
      DrainPass(cfg, s);
      var out, ready := TakeReady();
      while ready
        invariant Valid() && Repr() == old(Repr()) && tcq.Repr == old(tcq.Repr)
        invariant Sending(cfg, Abs(), out, ready) == Drain(cfg, s)
        decreases if ready then tcq.size + 1 else 0
      {
        if credit == 0 {
          SendFinal(out);
          break;
        }
        SendFinal(out);
        DrainPass(cfg, Abs());
        out, ready := TakeReady();
      }
    }

    method InsertAndDrain(sh: ShareMsg, sender: nat, skip: bool)
      requires Valid()
      modifies this, tcq.Repr
      ensures Valid() && fresh(Repr() - old(Repr()))
      ensures Abs() == ItrcSpec.InsertAndDrain(cfg, old(Abs()), sh, sender, skip)
    {
      hide Drain, ItrcSpec.InsertTc, OrderedQueue.Linked, OrderedQueue.Contents, QueueOps.Reporters, Sorted;
      QueueOps.InsertTc(cfg, applied, tcq, sh, sender, skip);
      DeliverAll();
    }

    /** ITRC_Apply_State_Transfer.  The source's assertion that the slot holds an
        agreed state is this method's precondition; every caller meets it. */
    method ApplyTransfer(o: Ordinal)
      requires Valid() && AgreedState(stq.Contents(), o).Some?
      modifies Repr()
      ensures Valid() && Repr() == old(Repr()) && Abs() == Apply(cfg, old(Abs()), o)
    {
      hide AgreedState, DropUpTo, OrderedQueue.Linked, OrderedQueue.Contents, QueueOps.Reporters, Sorted;
      ghost var s := Abs();
      var st := DropQueues(o);
      CopyProgress(st.latest);
      HandOver(st, o);
    }

    // The state goes to the SCADA master, and the applied ordinal moves up.
    method HandOver(st: StateXfer, o: Ordinal)
      requires Valid()
      modifies this`sent, this`applied, this`collecting, this`completed
      ensures Valid() && Repr() == old(Repr())
      ensures Abs() == old(Abs()).(toSm := old(sent.toSm) + [InstallState(st)], applied := o, collecting := false,
                                   completed := true, consumed := old(sent.consumed) + [Jumped(o)])
    {
      hide OrderedQueue.Linked, OrderedQueue.Contents, QueueOps.Reporters, Sorted;
      applied, collecting, completed := o, false, true;
      sent := sent.(toSm := sent.toSm + [InstallState(st)], consumed := sent.consumed + [Jumped(o)]);
    }

    // Both queues lose what a transfer to `o` makes stale; its agreed state is kept.
    method DropQueues(o: Ordinal) returns (st: StateXfer)
      requires Valid() && AgreedState(stq.Contents(), o).Some?
      modifies tcq.Repr, stq.Repr
      ensures Valid() && Repr() == old(Repr())
      ensures Some(st) == AgreedState(old(stq.Contents()), o)
      ensures Abs() == old(Abs()).(stq := DropUpTo(old(stq.Contents()), o), tcq := DropUpTo(old(tcq.Contents()), o))
    {
      hide OrderedQueue.Linked, OrderedQueue.Contents, QueueOps.Reporters, Sorted;
      DropShape(cfg, stq.Contents(), o);
      DropUpToShape(tcq.Contents(), o);
      var hit := stq.DropUpTo(o);
      st := hit.value.states[hit.value.result.value];
      var _ := tcq.DropUpTo(o);
    }

    method CopyProgress(latest: Progress)
      requires Valid()
      modifies progress
      ensures Valid() && Abs() == old(Abs()).(progress := latest)
    {
      hide OrderedQueue.Linked, OrderedQueue.Contents, QueueOps.Reporters, Sorted;
      forall i | 0 <= i < NUM_CLIENTS {
        progress[i] := latest[i];
      }
      assert progress[..] == latest;
    }

    // The part of ITRC_Process_Prime_Ordinal for a state transfer naming this
    // replica: signal the slot, or clean up what an unneeded transfer left.
    method HandleTransfer(o: Ordinal)
      requires Valid() && InvAt(cfg, Abs(), o) && !collecting && !halted && Less(recvd, o)
      modifies Repr()
      ensures Valid() && fresh(Repr() - old(Repr()))
      ensures Abs() == TransferPart(cfg, old(Abs()), o)
    {
      hide OrderedQueue.Linked, OrderedQueue.Contents, QueueOps.Reporters, Sorted, InvAt, Apply, ItrcSpec.InsertSt,
        DropUpTo, AgreedState;
      if !Consec(recvd, o) {
        SignalCompletes(cfg, Abs(), o);
        collecting := true;
        var complete := QueueOps.InsertSt(cfg, recvd, applied, stq, SignalState(o), cfg.me);
        if complete {
          ApplyTransfer(o);
        }
      } else {
        DropShape(cfg, stq.Contents(), o);
        var _ := stq.DropUpTo(o);
        if !cfg.cc {
          applied := o;
        }
      }
    }

    // An ordinal with nothing to sign takes an empty slot in the TC queue.
    method SkipSlot(o: Ordinal, u: Update, dup: bool)
      requires Valid() && dup == Duplicate(cfg, Abs(), u)
      modifies this, tcq.Repr
      ensures Valid() && fresh(Repr() - old(Repr()))
      ensures Abs() == SkipPart(cfg, old(Abs()), o, u)
    {
      hide OrderedQueue.Linked, OrderedQueue.Contents, QueueOps.Reporters, Sorted, ItrcSpec.InsertAndDrain, Duplicate,
        ValidFromPrime;
      if !ValidFromPrime(cfg, u) || u.NoOp? || u.StateTransfer? || u.SystemReset? || dup {
        if cfg.cc {
          InsertAndDrain(ShareMsg(o, NoPayload, Junk), cfg.me, true);
        }
      }
    }

    // What goes to the SCADA master.
    method Forward(o: Ordinal, u: Update, dup: bool)
      requires Valid() && (ValidFromPrime(cfg, u) && u.FromClient() ==> u.Client() < NUM_CLIENTS)
      modifies this, progress
      ensures Valid() && Repr() == old(Repr())
      ensures Abs() == ForwardPart(cfg, old(Abs()), o, u, dup)
    {
      hide OrderedQueue.Linked, OrderedQueue.Contents, QueueOps.Reporters, Sorted, ValidFromPrime;
      if !ValidFromPrime(cfg, u) || u.NoOp? || u.SystemReset? || TransferForMe(cfg, u) || dup {
        return;
      }
      if u.FromClient() {
        ordq := ordq + [o];
        progress[u.Client()] := u.seqp;
        sent := sent.(toSm := sent.toSm + [SmMsg.Forward(o, u)]);
      } else if u.StateTransfer? {
        ordq := ordq + [o];
        sent := sent.(toSm := sent.toSm + [StateRequest(o, u.machine, progress[..])]);
      }
    }

    // Takes up an ordinal that is next in line, or a transfer for this replica.
    method Admit(o: Ordinal, u: Update)
      requires Valid() && Inv(cfg, Abs()) && !halted && !collecting && Less(recvd, o)
      modifies Repr()
      ensures Valid() && fresh(Repr() - old(Repr()))
      ensures Abs() == ItrcSpec.Admit(cfg, old(Abs()), o, u)
    {
      hide OrderedQueue.Linked, OrderedQueue.Contents, QueueOps.Reporters, Sorted, Inv, InvAt, TakeUp, SkipPart,
        ForwardPart, Duplicate, ValidFromPrime;
      ghost var s := Abs();
      BeforeTransfer(cfg, s, o, u);
      var dup := IsDuplicate(u);
      TakeUpOrdinal(o, u, dup);
      recvd := o;
      Forward(o, u, dup);
    }

    // Everything up to the point where the received ordinal moves.
    method TakeUpOrdinal(o: Ordinal, u: Update, dup: bool)
      requires Valid() && dup == Duplicate(cfg, Abs(), u) && !halted && !collecting && Less(recvd, o)
      requires InvAt(cfg, SkipPart(cfg, Abs(), o, u), o)
      modifies Repr()
      ensures Valid() && fresh(Repr() - old(Repr()))
      ensures Abs() == TakeUp(cfg, old(Abs()), o, u)
    {
      hide OrderedQueue.Linked, OrderedQueue.Contents, QueueOps.Reporters, Sorted, InvAt, SkipPart, TransferPart,
        Duplicate;
      SkipSlot(o, u, dup);
      if TransferForMe(cfg, u) {
        HandleTransfer(o);
      }
    }

    /** ITRC_Process_Prime_Ordinal */
    method ProcessPrime(m: PrimeMsg)
      requires Valid() && Inv(cfg, Abs()) && !halted && Less(recvd, m.ord)
      modifies Repr()
      ensures Valid() && fresh(Repr() - old(Repr()))
      ensures Abs() == ItrcSpec.ProcessPrime(cfg, old(Abs()), m)
      ensures Inv(cfg, Abs()) && !halted && pending == if old(collecting) then old(pending) + [m] else old(pending)
    {
      hide OrderedQueue.Linked, OrderedQueue.Contents, QueueOps.Reporters, Sorted, InvAt, ItrcSpec.Admit;
      ghost var s := Abs();
      ProcessPrimeInv(cfg, s, m);
      if collecting {
        pending := pending + [m];
        return;
      }
      var o, u := m.ord, m.update;
      if !Consec(recvd, o) && !TransferForMe(cfg, u) {
        return;
      }
      Admit(o, u);
    }

    method IsDuplicate(u: Update) returns (dup: bool)
      requires Valid()
      ensures dup == Duplicate(cfg, Abs(), u)
      ensures ValidFromPrime(cfg, u) && u.FromClient() ==> u.Client() < NUM_CLIENTS
    {
      dup := ValidFromPrime(cfg, u) && u.FromClient() && PairCompare(u.seqp, progress[u.Client()]) <= 0;
    }

    // Replays buffered messages until none is left or a new collection starts.
    method ReplayPending()
      requires Valid() && Inv(cfg, Abs()) && !halted
      modifies Repr()
      ensures Valid() && fresh(Repr() - old(Repr()))
      ensures Abs() == Replay(cfg, old(Abs()))
    {
      hide OrderedQueue.Linked, OrderedQueue.Contents, QueueOps.Reporters, Sorted, Inv, ItrcSpec.ProcessPrime, Replay;
      ghost var s := Abs();
      while pending != [] && !collecting
        invariant Valid() && fresh(Repr() - old(Repr()))
        invariant Inv(cfg, Abs()) && !halted
        invariant Replay(cfg, Abs()) == Replay(cfg, s)
        decreases |pending|
      {
        ReplayOne(cfg, Abs());
        var m := pending[0];
        if Compare(m.ord, recvd) > 0 {
          ProcessPrime(m);
        }
        PendingKeepsInv(cfg, Abs(), pending[1..]);
        pending := pending[1..];
      }
      ReplayDone(cfg, Abs());
    }

    // After an event: catch up if it completed a transfer.
    method CatchUp()
      requires Valid() && Inv(cfg, Abs()) && !halted
      modifies Repr()
      ensures Valid() && fresh(Repr() - old(Repr()))
      ensures Abs() == Finish(cfg, old(Abs()))
    {
      hide OrderedQueue.Linked, OrderedQueue.Contents, QueueOps.Reporters, Sorted, Inv, Replay;
      if completed {
        if collecting {
          halted := true;
          return;
        }
        FlagKeepsInv(cfg, Abs());
        completed := false;
        ReplayPending();
      }
    }

    method OnPrime(m: PrimeMsg)
      requires Valid() && Inv(cfg, Abs()) && !halted
      modifies Repr()
      ensures Valid() && fresh(Repr() - old(Repr()))
      ensures Abs() == ItrcSpec.OnPrime(cfg, old(Abs()), m)
    {
      hide OrderedQueue.Linked, OrderedQueue.Contents, QueueOps.Reporters, Sorted, Inv, ItrcSpec.ProcessPrime, Finish;
      if m.update.SystemReset? {
        if m.ord.num != 0 {
          halted := true;
        } else {
          ResetAll();
        }
        return;
      }
      NoteFirstInv(cfg, Abs(), m.ord);
      NoteFirst(m.ord);
      if Compare(m.ord, recvd) <= 0 {
        return;
      }
      ProcessPrime(m);
      CatchUp();
    }

    // The first ordinal asks for a state transfer when it is ahead of the expected one.
    method NoteFirst(o: Ordinal)
      requires Valid()
      modifies this`firstSeen, this`sent
      ensures Valid() && Repr() == old(Repr()) && Abs() == ItrcSpec.NoteFirst(old(Abs()), o)
    {
      hide OrderedQueue.Linked, OrderedQueue.Contents, QueueOps.Reporters, Sorted;
      if !firstSeen && !Consec(recvd, o) {
        sent := sent.(injected := sent.injected + 1);
      }
      firstSeen := true;
    }

    /** ITRC_Reset_Master_Data_Structures, and the reset passed on to the SCADA master. */
    method ResetAll()
      requires Valid()
      modifies Repr()
      ensures Valid() && Repr() == old(Repr())
      ensures Abs() == Reset(old(Abs()))
    {
      hide OrderedQueue.Linked, OrderedQueue.Contents, QueueOps.Reporters, Sorted;
      ClearQueues();
      ClearRest();
    }

    method ClearQueues()
      requires Valid()
      modifies tcq.Repr, stq.Repr
      ensures Valid() && Repr() == old(Repr()) && Abs() == old(Abs()).(tcq := [], stq := [])
    {
      hide OrderedQueue.Linked, OrderedQueue.Contents;
      tcq.Clear();
      stq.Clear();
    }

    method ClearRest()
      requires Valid()
      modifies this
      ensures Valid() && Repr() == old(Repr())
      ensures Abs() == Reset(old(Abs())).(tcq := old(tcq.Contents()), stq := old(stq.Contents()))
    {
      hide OrderedQueue.Linked, OrderedQueue.Contents, QueueOps.Reporters, Sorted;
      ClearOrdinals();
      collecting, completed, halted := false, false, false;
      sent := NOTHING.(toSm := [ResetMaster]);
    }

    method ClearOrdinals()
      requires Valid()
      modifies this`ordq, this`pending, this`applied, this`recvd
      ensures Valid() && Repr() == old(Repr())
      ensures Abs() == old(Abs()).(ordq := [], pending := [], applied := ZERO, recvd := ZERO)
    {
      hide OrderedQueue.Linked, OrderedQueue.Contents, QueueOps.Reporters, Sorted;
      ordq, pending, applied, recvd := [], [], ZERO, ZERO;
    }

    // The SCADA master's next answer belongs to the ordinal at the front.
    method OnMaster(reply: SmReply)
      requires Valid() && !halted
      modifies Repr()
      ensures Valid() && fresh(Repr() - old(Repr()))
      ensures Abs() == ItrcSpec.OnMaster(cfg, old(Abs()), reply)
    {
      hide OrderedQueue.Linked, OrderedQueue.Contents, QueueOps.Reporters, Sorted, ItrcSpec.InsertAndDrain;
      if ordq == [] {
        halted := true;
        return;
      }
      var o := ordq[0];
      match reply
      case PackedState(target, latest, n, bytes) =>
        Release(sent.(states := sent.states + [StateXfer(o, target, latest, n, bytes)]));
      case Scada(p) =>
        var sh := ShareMsg(o, p, Genuine(cfg.me, o, p));
        Release(sent.(shares := sent.shares + [sh]));
        if cfg.cc {
          InsertAndDrain(sh, cfg.me, false);
        }
    }

    // The answered ordinal leaves the queue and the signed answer goes out.
    method Release(ghost out: Sent)
      requires Valid() && ordq != []
      modifies this`ordq, this`sent
      ensures Valid() && Repr() == old(Repr()) && ordq == old(ordq)[1..] && sent == out
      ensures Abs() == old(Abs()).(ordq := ordq, toSm := out.toSm, finals := out.finals, lost := out.lost,
                                   shares := out.shares, states := out.states, consumed := out.consumed,
                                   injected := out.injected)
    {
      hide OrderedQueue.Linked, OrderedQueue.Contents, QueueOps.Reporters, Sorted;
      ordq, sent := ordq[1..], out;
    }

    method OnShare(sender: nat, sh: ShareMsg)
      requires Valid()
      modifies Repr()
      ensures Valid() && fresh(Repr() - old(Repr()))
      ensures Abs() == ItrcSpec.OnShare(cfg, old(Abs()), sender, sh)
    {
      hide OrderedQueue.Linked, OrderedQueue.Contents, QueueOps.Reporters, Sorted, ItrcSpec.InsertAndDrain;
      if cfg.cc {
        InsertAndDrain(sh, sender, false);
      }
    }

    method OnState(sender: nat, st: StateXfer)
      requires Valid() && Inv(cfg, Abs()) && !halted && cfg.IsReplica(sender) && sender != cfg.me
      modifies Repr()
      ensures Valid() && fresh(Repr() - old(Repr()))
      ensures Abs() == ItrcSpec.OnState(cfg, old(Abs()), sender, st)
    {
      hide OrderedQueue.Linked, OrderedQueue.Contents, QueueOps.Reporters, Sorted, Inv, Apply, ItrcSpec.InsertSt,
        AgreedState, Finish;
      ArrivalCompletes(cfg, Abs(), sender, st);
      var complete := QueueOps.InsertSt(cfg, recvd, applied, stq, st, sender);
      if complete {
        ApplyTransfer(st.ord);
      }
      CatchUp();
    }

    /** One turn of the event loop: the globals take exactly the step the
        specification prescribes, and keep its invariant. */
    method Handle(e: Event)
      requires Valid() && Inv(cfg, Abs()) && ProperEvent(cfg, e)
      modifies Repr()
      ensures Valid() && fresh(Repr() - old(Repr()))
      ensures Abs() == Step(cfg, old(Abs()), e) && Inv(cfg, Abs())
    {
      hide OrderedQueue.Linked, OrderedQueue.Contents, QueueOps.Reporters, Sorted, Inv, ItrcSpec.OnPrime,
        ItrcSpec.OnMaster, ItrcSpec.OnShare, ItrcSpec.OnState;
      StepInv(cfg, Abs(), e);
      if halted {
        return;
      }
      match e
      case PrimeDelivery(m) => OnPrime(m);
      case MasterReply(r) => OnMaster(r);
      case ShareArrival(sender, sh) => OnShare(sender, sh);
      case StateArrival(sender, st) => OnState(sender, st);
      case LinkCredit(n) => credit := n;
    }
  }

  /** The event loop over any sequence of events reaches the state of the
      specification's run. */
  method RunReplica(cfg: Config, es: seq<Event>) returns (r: Replica)
    requires cfg.Valid() && forall i | 0 <= i < |es| :: ProperEvent(cfg, es[i])
    ensures fresh(r) && r.Valid() && r.Abs() == Run(cfg, es) && Inv(cfg, r.Abs())
  {
    hide Step, Inv, OrderedQueue.Linked, OrderedQueue.Contents, QueueOps.Reporters, Sorted;
    InitialInv(cfg);
    r := new Replica(cfg);
    for i := 0 to |es|
      invariant fresh(r.Repr()) && r.Valid() && r.cfg == cfg
      invariant r.Abs() == Run(cfg, es[..i]) && Inv(cfg, r.Abs())
    {
      r.Handle(es[i]);
      assert es[..i + 1][..i] == es[..i];
    }
    assert es[..|es|] == es;
  }

  // What an arriving state completes holds an agreed state, and the invariant is back.
  lemma ArrivalCompletes(cfg: Config, s: State, sender: nat, st: StateXfer)
    requires Inv(cfg, s) && !s.halted && cfg.IsReplica(sender) && sender != cfg.me
    ensures var (q, complete) := InsertSt(cfg, s.recvd, s.applied, s.stq, st, sender);
            var s1 := s.(stq := q);
            && (complete ==>
                  AgreedState(q, st.ord).Some? && Inv(cfg, Apply(cfg, s1, st.ord)) && !Apply(cfg, s1, st.ord).halted)
            && (!complete ==> Inv(cfg, s1))
  {
    hide InsertSt, AgreedState, Complete, Apply;
    InsertStInv(cfg, s.recvd, s.applied, s.stq, s.collecting, s.recvd, st, sender);
    var (q, complete) := InsertSt(cfg, s.recvd, s.applied, s.stq, st, sender);
    if complete {
      CompleteHasState(cfg, q, st.ord);
      ApplyInv(cfg, s.(stq := q), st.ord, s.recvd);
    }
  }

  lemma ReplayOne(cfg: Config, s: State)
    requires s.pending != [] && !s.collecting && !s.halted
    ensures var s1 := if Less(s.recvd, s.pending[0].ord) then ProcessPrime(cfg, s, s.pending[0]) else s;
            s1.pending == s.pending && Replay(cfg, s) == Replay(cfg, s1.(pending := s1.pending[1..]))
  {
    hide ProcessPrime;
  }

  lemma ReplayDone(cfg: Config, s: State)
    requires s.pending == [] || s.collecting || s.halted
    ensures Replay(cfg, s) == s
  {
  }

  lemma PendingKeepsInv(cfg: Config, s: State, ms: seq<PrimeMsg>)
    requires Inv(cfg, s)
    ensures Inv(cfg, s.(pending := ms))
  {
  }

  lemma FlagKeepsInv(cfg: Config, s: State)
    requires Inv(cfg, s)
    ensures Inv(cfg, s.(completed := false))
  {
  }

  lemma BeforeTransfer(cfg: Config, s: State, o: Ordinal, u: Update)
    requires Inv(cfg, s) && !s.halted && !s.collecting && Less(s.recvd, o)
    ensures InvAt(cfg, SkipPart(cfg, s, o, u), o) && !TakeUp(cfg, s, o, u).halted
  {
    hide InvAt, TakeUp, SkipPart;
    AdvanceInv(cfg, s, s.recvd, o);
    SkipPartInv(cfg, s, o, u);
    TakeUpInv(cfg, s, o, u);
  }

  // The slot a signal completes holds an agreed state.
  lemma SignalCompletes(cfg: Config, s: State, o: Ordinal)
    requires InvAt(cfg, s, o) && !s.collecting
    ensures cfg.IsReplica(cfg.me)
    ensures var (q, complete) := InsertSt(cfg, s.recvd, s.applied, s.stq, SignalState(o), cfg.me);
            complete ==> AgreedState(q, o).Some?
  {
    hide InsertSt, AgreedState, Complete;
    assert StInv(cfg, s.stq, true, o);
    InsertStInv(cfg, s.recvd, s.applied, s.stq, true, o, SignalState(o), cfg.me);
    var (q, complete) := InsertSt(cfg, s.recvd, s.applied, s.stq, SignalState(o), cfg.me);
    if complete {
      CompleteHasState(cfg, q, o);
    }
  }

  lemma DropShape(cfg: Config, q: seq<StSlot>, o: Ordinal)
    requires QueueOps.Reporters(cfg, q) && Sorted(q)
    ensures QueueOps.Reporters(cfg, DropUpTo(q, o)) && Sorted(DropUpTo(q, o))
  {
    DropUpToShape(q, o);
  }

  // A pass, and what sending its result leads to.
  function Sending(cfg: Config, s: State, out: Option<TcFinal>, ready: bool): State {
    if !ready then s
    else if s.credit == 0 then SendFinal(s, out)
    else Drain(cfg, SendFinal(s, out))
  }

  lemma DrainPass(cfg: Config, s: State)
    ensures var r := ReadyDeliver(cfg, s.applied, s.tcq);
            Drain(cfg, s) == Sending(cfg, AfterPass(cfg, s), r.out, r.ready)
  {
  }
}
