/** Buffering Prime's messages while a state is being collected and replaying
    them afterwards comes to the same as receiving them after the transfer. */
module ReplayEquivalence {
  import opened Ordinals
  import opened Packets
  import opened Slots
  import opened ItrcSpec
  import opened TcInvariants
  import opened StInvariants
  import opened ReplicaInvariants

  // A replay that completes another transfer leaves the completion flag set
  // until the next event; nothing else tells the two orders apart.
  function Settled(s: State): State {
    s.(completed := false)
  }

  // What processing a Prime ordinal neither reads nor depends on.
  function Bare(s: State): State {
    s.(completed := false, pending := [])
  }

  function DeliverAll(cfg: Config, s: State, ms: seq<PrimeMsg>): State
    decreases |ms|
  {
    if ms == [] then s else DeliverAll(cfg, Step(cfg, s, PrimeDelivery(ms[0])), ms[1..])
  }

  // A strictly increasing stream beyond `from`, without system resets.
  predicate Stream(from: Ordinal, ms: seq<PrimeMsg>) {
    && (forall i | 0 <= i < |ms| :: Less(from, ms[i].ord) && !ms[i].update.SystemReset?)
    && (forall i, j | 0 <= i < j < |ms| :: Less(ms[i].ord, ms[j].ord))
  }

  // ---- Processing ignores the buffer and the completion flag ------------------

  lemma {:induction false} DrainBare(cfg: Config, s: State)
    ensures Bare(Drain(cfg, s)) == Drain(cfg, Bare(s))
    decreases |s.tcq|
  {
    hide ReadyDeliver;
    var r := ReadyDeliver(cfg, s.applied, s.tcq);
    if r.ready && s.credit > 0 {
      DrainBare(cfg, SendFinal(AfterPass(cfg, s), r.out));
    }
  }

  lemma SkipPartBare(cfg: Config, s: State, o: Ordinal, u: Update)
    ensures Bare(SkipPart(cfg, s, o, u)) == SkipPart(cfg, Bare(s), o, u)
  {
    if EmptySlot(cfg, s, u) && cfg.cc {
      DrainBare(cfg, s.(tcq := InsertTc(cfg, s.applied, s.tcq, ShareMsg(o, NoPayload, Junk), cfg.me, true)));
    }
  }

  lemma ApplyBare(cfg: Config, s: State, o: Ordinal)
    ensures Bare(Apply(cfg, s, o)) == Bare(Apply(cfg, Bare(s), o))
  {
  }

  lemma TransferPartBare(cfg: Config, s: State, o: Ordinal)
    ensures Bare(TransferPart(cfg, s, o)) == Bare(TransferPart(cfg, Bare(s), o))
  {
    if !Consec(s.recvd, o) {
      var (q, complete) := InsertSt(cfg, s.recvd, s.applied, s.stq, SignalState(o), cfg.me);
      var s2 := s.(collecting := true).(stq := q);
      if complete {
        ApplyBare(cfg, s2, o);
        assert Bare(s2) == Bare(s).(collecting := true).(stq := q);
      }
    }
  }

  lemma TakeUpBare(cfg: Config, s: State, o: Ordinal, u: Update)
    ensures Bare(TakeUp(cfg, s, o, u)) == Bare(TakeUp(cfg, Bare(s), o, u))
  {
    SkipPartBare(cfg, s, o, u);
    if TransferForMe(cfg, u) {
      TransferPartBare(cfg, SkipPart(cfg, s, o, u), o);
    }
  }

  lemma ForwardPartBare(cfg: Config, s: State, o: Ordinal, u: Update, dup: bool)
    ensures Bare(ForwardPart(cfg, s, o, u, dup)) == ForwardPart(cfg, Bare(s), o, u, dup)
  {
  }

  lemma AdmitBare(cfg: Config, s: State, o: Ordinal, u: Update)
    ensures Bare(Admit(cfg, s, o, u)) == Bare(Admit(cfg, Bare(s), o, u))
  {
    TakeUpBare(cfg, s, o, u);
    var t, b := TakeUp(cfg, s, o, u), TakeUp(cfg, Bare(s), o, u);
    var dup := Duplicate(cfg, s, u);
    ForwardPartBare(cfg, t.(recvd := o), o, u, dup);
    ForwardPartBare(cfg, b.(recvd := o), o, u, dup);
    assert Bare(t.(recvd := o)) == Bare(b.(recvd := o));
  }

  lemma ProcessPrimeBare(cfg: Config, s: State, m: PrimeMsg)
    requires !s.collecting
    ensures Bare(ProcessPrime(cfg, s, m)) == Bare(ProcessPrime(cfg, Bare(s), m))
  {
    AdmitBare(cfg, s, m.ord, m.update);
  }

  // ---- One message ---------------------------------------------------------------

  lemma TakeUpCollects(cfg: Config, s: State, o: Ordinal, u: Update)
    requires !s.collecting
    ensures var r := TakeUp(cfg, s, o, u);
            && (r.collecting ==> TransferForMe(cfg, u) && r.completed == s.completed)
  {
  }

  /** A message received with an empty buffer leaves the flag clear, and moves
      `recvd` to it if it starts a collection. */
  lemma DeliverOne(cfg: Config, s: State, m: PrimeMsg)
    requires Inv(cfg, s) && !s.halted && !s.collecting && !s.completed && s.pending == [] && s.firstSeen
    requires !m.update.SystemReset?
    ensures var d := Step(cfg, s, PrimeDelivery(m));
            && Inv(cfg, d) && !d.halted && !d.completed && d.pending == [] && d.firstSeen
            && d == (if Less(s.recvd, m.ord) then Bare(ProcessPrime(cfg, s, m)) else s)
            && (d.collecting ==> d.recvd == m.ord)
  {
    assert NoteFirst(s, m.ord) == s;
    if Less(s.recvd, m.ord) {
      var p := ProcessPrime(cfg, s, m);
      ProcessPrimeInv(cfg, s, m);
      ProcessPrimeFrame(cfg, s, m);
      assert Finish(cfg, p) == Bare(p);
    }
  }

  lemma ProcessPrimeFrame(cfg: Config, s: State, m: PrimeMsg)
    requires Inv(cfg, s) && !s.halted && !s.collecting && Less(s.recvd, m.ord)
    ensures var p := ProcessPrime(cfg, s, m);
            && p.firstSeen == s.firstSeen
            && (p.collecting ==> p.recvd == m.ord && p.completed == s.completed)
  {
    TakeUpCollects(cfg, s, m.ord, m.update);
    TakeUpInv(cfg, s, m.ord, m.update);
    TakeUpFrame(cfg, s, m.ord, m.update);
  }

  lemma TakeUpFrame(cfg: Config, s: State, o: Ordinal, u: Update)
    ensures TakeUp(cfg, s, o, u).firstSeen == s.firstSeen
  {
    hide InsertSt, AgreedState, DropUpTo, EmptySlot, InsertAndDrain;
  }

  // While collecting, messages pile up in order.
  lemma {:induction false} DeliverWhileCollecting(cfg: Config, s: State, ms: seq<PrimeMsg>)
    requires !s.halted && s.collecting && !s.completed && s.firstSeen && Stream(s.recvd, ms)
    ensures DeliverAll(cfg, s, ms) == s.(pending := s.pending + ms)
    decreases |ms|
  {
    if ms != [] {
      var s1 := s.(pending := s.pending + [ms[0]]);
      assert NoteFirst(s, ms[0].ord) == s;
      assert Step(cfg, s, PrimeDelivery(ms[0])) == s1;
      DeliverWhileCollecting(cfg, s1, ms[1..]);
      assert s1.pending + ms[1..] == s.pending + ms;
    }
  }

  // The replay's next state after taking the first message off the buffer.
  function TakeOne(cfg: Config, s: State): State
    requires s.pending != []
  {
    var m := s.pending[0];
    var s1 := if Less(s.recvd, m.ord) then ProcessPrime(cfg, s, m) else s;
    s1.(pending := s.pending[1..])
  }

  lemma TakeOneIsDelivery(cfg: Config, s: State)
    requires Inv(cfg, s) && !s.halted && !s.collecting && s.firstSeen && s.pending != []
    requires !s.pending[0].update.SystemReset?
    ensures var n := TakeOne(cfg, s);
            && Inv(cfg, n) && !n.halted && n.firstSeen
            && Replay(cfg, s) == Replay(cfg, n)
            && Bare(n) == Step(cfg, Bare(s), PrimeDelivery(s.pending[0]))
            && (n.collecting ==> n.recvd == s.pending[0].ord)
  {
    var m := s.pending[0];
    BareInv(cfg, s);
    DeliverOne(cfg, Bare(s), m);
    if Less(s.recvd, m.ord) {
      ProcessPrimeBare(cfg, s, m);
      ProcessPrimeInv(cfg, s, m);
      ProcessPrimeFrame(cfg, s, m);
      PendingInv(cfg, ProcessPrime(cfg, s, m), s.pending[1..]);
    } else {
      PendingInv(cfg, s, s.pending[1..]);
    }
  }

  lemma PendingInv(cfg: Config, s: State, p: seq<PrimeMsg>)
    requires Inv(cfg, s)
    ensures Inv(cfg, s.(pending := p))
  {
  }

  /** Replaying a buffer equals delivering its messages one by one; a collection
      that starts on the way keeps the remaining messages buffered, in order. */
  lemma {:induction false} ReplayIsDelivery(cfg: Config, s: State)
    requires Inv(cfg, s) && !s.halted && !s.collecting && s.firstSeen
    requires forall i | 0 <= i < |s.pending| :: !s.pending[i].update.SystemReset?
    requires forall i, j | 0 <= i < j < |s.pending| :: Less(s.pending[i].ord, s.pending[j].ord)
    ensures Settled(Replay(cfg, s)) == DeliverAll(cfg, Bare(s), s.pending)
    decreases |s.pending|
  {
    hide Inv, Step, ProcessPrime;
    if s.pending != [] {
      var ms := s.pending[1..];
      TakeOneIsDelivery(cfg, s);
      var next := TakeOne(cfg, s);
      if next.collecting {
        DeliverWhileCollecting(cfg, Bare(next), ms);
        assert [] + ms == ms;
      } else {
        ReplayIsDelivery(cfg, next);
      }
    }
  }

  lemma BareInv(cfg: Config, s: State)
    requires Inv(cfg, s)
    ensures Inv(cfg, Bare(s))
  {
  }

  // The completing case: the state after the transfer, with the buffer put back.
  lemma CompleteThenReplay(cfg: Config, c: State, ms: seq<PrimeMsg>, o: Ordinal)
    requires Inv(cfg, c.(stq := [])) && !c.halted && !c.completed && c.pending == [] && c.firstSeen
    requires StInvMid(cfg, c.stq, c.collecting, c.recvd) && Complete(cfg, c.stq, o) && Same(o, c.recvd)
              && Less(c.applied, o)
    requires Stream(c.recvd, ms)
    ensures Settled(Finish(cfg, Apply(cfg, c.(pending := ms), o)))
         == DeliverAll(cfg, Finish(cfg, Apply(cfg, c, o)), ms)
  {
    ApplyInv(cfg, c, o, c.recvd);
    var a := Apply(cfg, c, o);
    var b := a.(pending := ms, completed := false);
    assert Apply(cfg, c.(pending := ms), o) == a.(pending := ms);
    PendingInv(cfg, a, ms);
    assert Inv(cfg, b);
    ReplayIsDelivery(cfg, b);
    assert Finish(cfg, a) == Bare(b);
  }

  lemma StateStep(cfg: Config, c: State, sender: nat, st: StateXfer)
    requires !c.halted && !c.completed
    ensures var (q, complete) := InsertSt(cfg, c.recvd, c.applied, c.stq, st, sender);
            Step(cfg, c, StateArrival(sender, st)) ==
            if complete then Finish(cfg, Apply(cfg, c.(stq := q), st.ord)) else c.(stq := q)
  {
  }

  lemma QueueInv(cfg: Config, c: State)
    requires Inv(cfg, c)
    ensures Inv(cfg, c.(stq := []))
  {
  }

  /** Completing a transfer with messages in the buffer equals completing it
      with an empty buffer and receiving those messages afterwards. */
  lemma CompletionReplaysBuffer(cfg: Config, c: State, sender: nat, st: StateXfer)
    requires Inv(cfg, c) && !c.halted && c.collecting && !c.completed && c.firstSeen
    requires Stream(c.recvd, c.pending) && cfg.IsReplica(sender) && sender != cfg.me
    ensures Settled(Step(cfg, c, StateArrival(sender, st)))
         == DeliverAll(cfg, Step(cfg, c.(pending := []), StateArrival(sender, st)), c.pending)
  {
    var ms, c0 := c.pending, c.(pending := []);
    PendingInv(cfg, c, []);
    StateStep(cfg, c, sender, st);
    StateStep(cfg, c0, sender, st);
    var (q, complete) := InsertSt(cfg, c.recvd, c.applied, c.stq, st, sender);
    InsertStInv(cfg, c.recvd, c.applied, c.stq, c.collecting, c.recvd, st, sender);
    var c1 := c0.(stq := q);
    assert c.(stq := q) == c1.(pending := ms);
    if complete {
      QueueInv(cfg, c0);
      CompleteThenReplay(cfg, c1, ms, st.ord);
    } else {
      DeliverWhileCollecting(cfg, c1, ms);
      assert [] + ms == ms;
    }
  }

  /** So the completing state may arrive before or after any stretch of the Prime
      stream: both orders end in the same queues, ordinals, progress, messages to
      the SCADA master, finals and buffer. */
  lemma BufferThenReplay(cfg: Config, c: State, ms: seq<PrimeMsg>, sender: nat, st: StateXfer)
    requires Inv(cfg, c) && !c.halted && c.collecting && !c.completed && c.pending == [] && c.firstSeen
    requires Stream(c.recvd, ms) && cfg.IsReplica(sender) && sender != cfg.me
    ensures Settled(Step(cfg, DeliverAll(cfg, c, ms), StateArrival(sender, st)))
         == DeliverAll(cfg, Step(cfg, c, StateArrival(sender, st)), ms)
  {
    DeliverWhileCollecting(cfg, c, ms);
    assert [] + ms == ms;
    PendingInv(cfg, c, ms);
    CompletionReplaysBuffer(cfg, c.(pending := ms), sender, st);
    assert c.(pending := ms).(pending := []) == c;
  }

  // ---- A collecting replica has seen a first ordinal ---------------------------

  lemma {:induction false} ReplaySeen(cfg: Config, s: State)
    ensures Replay(cfg, s).firstSeen == s.firstSeen
    decreases |s.pending|
  {
    if s.pending != [] && !s.collecting && !s.halted {
      var m := s.pending[0];
      AdmitSeen(cfg, s, m.ord, m.update);
      var s1 := if Less(s.recvd, m.ord) then ProcessPrime(cfg, s, m) else s;
      ReplaySeen(cfg, s1.(pending := s1.pending[1..]));
    }
  }

  lemma AdmitSeen(cfg: Config, s: State, o: Ordinal, u: Update)
    ensures Admit(cfg, s, o, u).firstSeen == s.firstSeen
  {
    TakeUpFrame(cfg, s, o, u);
  }

  predicate Seen(s: State) {
    s.collecting || s.pending != [] ==> s.firstSeen
  }

  lemma PrimeSeen(cfg: Config, s: State, m: PrimeMsg)
    requires Seen(s)
    ensures Seen(OnPrime(cfg, s, m))
  {
    hide ProcessPrime;
    if !m.update.SystemReset? {
      var s1 := NoteFirst(s, m.ord);
      ProcessSeen(cfg, s1, m);
      ReplaySeen(cfg, ProcessPrime(cfg, s1, m).(completed := false));
    }
  }

  lemma ProcessSeen(cfg: Config, s: State, m: PrimeMsg)
    ensures ProcessPrime(cfg, s, m).firstSeen == s.firstSeen
  {
    hide Admit;
    AdmitSeen(cfg, s, m.ord, m.update);
  }

  lemma StateSeen(cfg: Config, s: State, sender: nat, st: StateXfer)
    requires Seen(s)
    ensures Seen(OnState(cfg, s, sender, st))
  {
    hide InsertSt, AgreedState, DropUpTo, ProcessPrime;
    var (q, complete) := InsertSt(cfg, s.recvd, s.applied, s.stq, st, sender);
    var s1 := s.(stq := q);
    var s2 := if complete then Apply(cfg, s1, st.ord) else s1;
    ReplaySeen(cfg, s2.(completed := false));
  }

  lemma StepSeen(cfg: Config, s: State, e: Event)
    requires Seen(s)
    ensures Seen(Step(cfg, s, e))
  {
    hide OnPrime, OnState;
    match e
    case PrimeDelivery(m) => PrimeSeen(cfg, s, m);
    case StateArrival(sender, st) => StateSeen(cfg, s, sender, st);
    case _ =>
  }

  lemma {:induction false} RunSeen(cfg: Config, es: seq<Event>)
    ensures Seen(Run(cfg, es))
    decreases |es|
  {
    if es != [] {
      RunSeen(cfg, es[..|es| - 1]);
      StepSeen(cfg, Run(cfg, es[..|es| - 1]), es[|es| - 1]);
    }
  }

  /** The same for every reachable replica that is collecting. */
  lemma RunReplaysBuffer(cfg: Config, es: seq<Event>, sender: nat, st: StateXfer)
    requires cfg.Valid() && forall i | 0 <= i < |es| :: ProperEvent(cfg, es[i])
    requires var c := Run(cfg, es); !c.halted && c.collecting && !c.completed && Stream(c.recvd, c.pending)
    requires cfg.IsReplica(sender) && sender != cfg.me
    ensures Settled(Step(cfg, Run(cfg, es), StateArrival(sender, st)))
         == DeliverAll(cfg, Step(cfg, Run(cfg, es).(pending := []), StateArrival(sender, st)), Run(cfg, es).pending)
  {
    RunInv(cfg, es);
    RunSeen(cfg, es);
    CompletionReplaysBuffer(cfg, Run(cfg, es), sender, st);
  }
}
