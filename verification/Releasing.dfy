/** Every answer a correct replica takes from its SCADA master is signed and
    released, under the ordinal of the question it answers. */
module Releasing {
  import opened Ordinals
  import opened Packets
  import opened ScadaSpec
  import opened Reference
  import opened ItrcSpec
  import opened ReplicaInvariants
  import opened ReplicaTracking
  import opened Deployment

  // The answer went out, signed, under ordinal `o`.
  predicate Out(me: nat, s: State, o: Ordinal, reply: SmReply) {
    match reply
    case Scada(p) => ShareMsg(o, p, Genuine(me, o, p)) in s.shares
    case PackedState(t, latest, n, bytes) => StateXfer(o, t, latest, n, bytes) in s.states
  }

  ghost predicate AllOut(w: World, r: nat, rep: Replica)
    requires Deployable(w.topo)
  {
    && rep.read <= |rep.channel.toSm|
    && rep.taken <= |Answers(w, r, rep)| && rep.taken <= |Tags(rep.channel.toSm)|
    && forall k | 0 <= k < rep.taken :: Out(r, rep.channel, Tags(rep.channel.toSm)[k], Answers(w, r, rep)[k])
  }

  // ---- What is released stays released -------------------------------------------------

  predicate SameSigned(s: State, r: State) {
    r.shares == s.shares && r.states == s.states
  }

  lemma ProcessKeepsSigned(cfg: Config, s: State, m: PrimeMsg)
    ensures SameSigned(s, ProcessPrime(cfg, s, m))
  {
    hide TakeUp, Duplicate, ValidFromPrime;
    TakeUpKeepsSigned(cfg, s, m.ord, m.update);
  }

  lemma TakeUpKeepsSigned(cfg: Config, s: State, o: Ordinal, u: Update)
    ensures SameSigned(s, TakeUp(cfg, s, o, u))
  {
    hide SkipPart, TransferPart;
    TransferKeepsSigned(cfg, SkipPart(cfg, s, o, u), o);
  }

  lemma TransferKeepsSigned(cfg: Config, s: State, o: Ordinal)
    ensures SameSigned(s, TransferPart(cfg, s, o))
  {
    hide Apply, InsertSt;
    var (q, complete) := InsertSt(cfg, s.recvd, s.applied, s.stq, SignalState(o), cfg.me);
    ApplyKeepsSigned(cfg, s.(collecting := true, stq := q), o);
  }

  lemma {:induction false} ReplayKeepsSigned(cfg: Config, s: State)
    ensures SameSigned(s, Replay(cfg, s))
    decreases |s.pending|
  {
    hide ProcessPrime;
    if s.pending != [] && !s.collecting && !s.halted {
      var m := s.pending[0];
      ProcessKeepsSigned(cfg, s, m);
      var s1 := if Less(s.recvd, m.ord) then ProcessPrime(cfg, s, m) else s;
      ReplayKeepsSigned(cfg, s1.(pending := s1.pending[1..]));
    }
  }

  lemma FinishKeepsSigned(cfg: Config, s: State)
    ensures SameSigned(s, Finish(cfg, s))
  {
    ReplayKeepsSigned(cfg, s.(completed := false));
  }

  lemma SignedGrows(cfg: Config, s: State, e: Event)
    requires !e.PrimeDelivery? || !e.m.update.SystemReset?
    ensures s.shares <= Step(cfg, s, e).shares && s.states <= Step(cfg, s, e).states
  {
    hide ProcessPrime, Finish, Apply, InsertSt;
    match e
    case PrimeDelivery(m) =>
      var s1 := NoteFirst(s, m.ord);
      ProcessKeepsSigned(cfg, s1, m);
      FinishKeepsSigned(cfg, ProcessPrime(cfg, s1, m));
    case StateArrival(sender, st) =>
      var (q, complete) := InsertSt(cfg, s.recvd, s.applied, s.stq, st, sender);
      ApplyKeepsSigned(cfg, s.(stq := q), st.ord);
      FinishKeepsSigned(cfg, if complete then Apply(cfg, s.(stq := q), st.ord) else s.(stq := q));
    case _ =>
  }

  lemma ApplyKeepsSigned(cfg: Config, s: State, o: Ordinal)
    ensures SameSigned(s, Apply(cfg, s, o))
  {
  }

  lemma StillOut(me: nat, s: State, s': State, o: Ordinal, reply: SmReply)
    requires Out(me, s, o, reply) && s.shares <= s'.shares && s.states <= s'.states
    ensures Out(me, s', o, reply)
  {
    forall x | x in s.shares ensures x in s'.shares {
      var k :| 0 <= k < |s.shares| && s.shares[k] == x;
      assert s'.shares[k] == x;
    }
    forall x | x in s.states ensures x in s'.states {
      var k :| 0 <= k < |s.states| && s.states[k] == x;
      assert s'.states[k] == x;
    }
  }

  lemma {:induction false} TagsGrow(msgs: seq<SmMsg>, more: seq<SmMsg>)
    requires msgs <= more
    ensures Tags(msgs) <= Tags(more)
    decreases |more|
  {
    if |msgs| < |more| {
      TagsGrow(msgs, more[..|more| - 1]);
    } else {
      assert msgs == more;
    }
  }

  // ---- Steps -----------------------------------------------------------------------------

  // A step of the channel that takes no answer.
  lemma ChannelStepOut(w: World, r: nat, rep: Replica, e: Event)
    requires Deployable(w.topo) && AllOut(w, r, rep) && (!e.PrimeDelivery? || !e.m.update.SystemReset?)
    ensures AllOut(w, r, rep.(channel := Step(w.Cfg(r), rep.channel, e)))
  {
    hide Step, Tags, Replies, Out;
    var s, s' := rep.channel, Step(w.Cfg(r), rep.channel, e);
    ToSmGrows(w.Cfg(r), s, e);
    SignedGrows(w.Cfg(r), s, e);
    TagsGrow(s.toSm, s'.toSm);
    assert s'.toSm[..rep.read] == s.toSm[..rep.read];
    forall k | 0 <= k < rep.taken ensures Out(r, s', Tags(s'.toSm)[k], Answers(w, r, rep)[k]) {
      StillOut(r, s, s', Tags(s.toSm)[k], Answers(w, r, rep)[k]);
    }
  }

  lemma ReadStepOut(w: World, r: nat, rep: Replica)
    requires Deployable(w.topo) && AllOut(w, r, rep) && rep.read < |rep.channel.toSm|
    ensures AllOut(w, r, rep.(read := rep.read + 1))
  {
    hide Tags, Replies, Out;
    var msgs := rep.channel.toSm[..rep.read + 1];
    RepliesPrefix(w, r, msgs, rep.read);
    assert msgs[..rep.read] == rep.channel.toSm[..rep.read];
  }

  lemma AnswerStepOut(w: World, r: nat, rep: Replica)
    requires WorldValid(w) && w.Correct(r) && ReplicaOk(w, r, rep) && AllOut(w, r, rep)
    requires rep.taken < |Answers(w, r, rep)| && !rep.channel.halted
    ensures var reply := Answers(w, r, rep)[rep.taken];
            AllOut(w, r, Replica(Step(w.Cfg(r), rep.channel, MasterReply(reply)), rep.read, rep.taken + 1))
  {
    hide Step, Tags, Replies, Inv, Faithful, SyncedAt, Inputs, Signed, Answered, LogValid, Out;
    var s, reply := rep.channel, Answers(w, r, rep)[rep.taken];
    var p: nat :| p <= |w.log| && At(w, r, s, p, rep.taken);
    NthAnswer(w, r, s.toSm, rep.read, rep.taken);
    var s' := Step(w.Cfg(r), s, MasterReply(reply));
    AnswerGoesOut(w.Cfg(r), s, reply);
    ToSmGrows(w.Cfg(r), s, MasterReply(reply));
    SignedGrows(w.Cfg(r), s, MasterReply(reply));
    TagsGrow(s.toSm, s'.toSm);
    assert s'.toSm[..rep.read] == s.toSm[..rep.read];
    forall k | 0 <= k < rep.taken ensures Out(r, s', Tags(s'.toSm)[k], Answers(w, r, rep)[k]) {
      StillOut(r, s, s', Tags(s.toSm)[k], Answers(w, r, rep)[k]);
    }
  }

  lemma AnswerGoesOut(cfg: Config, s: State, reply: SmReply)
    requires !s.halted && s.ordq != []
    ensures Out(cfg.me, Step(cfg, s, MasterReply(reply)), s.ordq[0], reply)
  {
  }

  ghost predicate EachOut(w: World, y: System)
    requires Deployable(w.topo)
  {
    forall r | r in y.replicas :: AllOut(w, r, y.replicas[r])
  }

  lemma OneMoves(w: World, y: System, y': System, r: nat)
    requires Deployable(w.topo) && EachOut(w, y) && r in y.replicas && r in y'.replicas
    requires y'.replicas == y.replicas[r := y'.replicas[r]] && AllOut(w, r, y'.replicas[r])
    ensures EachOut(w, y')
  {
    hide AllOut;
  }

  lemma NextOut(w: World, y: System, a: Act)
    requires WorldValid(w) && SystemOk(w, y) && Enabled(w, y, a) && EachOut(w, y)
    ensures EachOut(w, Next(w, y, a))
  {
    hide AllOut, Step, ReplicaOk, ClientsOk, Replies, Answered;
    var y' := Next(w, y, a);
    match a
    case PrimeDelivers(r, m) =>
      NotReset(w, m);
      ChannelStepOut(w, r, y.replicas[r], PrimeDelivery(m));
      OneMoves(w, y, y', r);
    case MasterReads(r) =>
      ReadStepOut(w, r, y.replicas[r]);
      OneMoves(w, y, y', r);
    case MasterAnswers(r) =>
      if !y.replicas[r].channel.halted {
        AnswerStepOut(w, r, y.replicas[r]);
        OneMoves(w, y, y', r);
      }
    case ShareArrives(r, sender, sh) =>
      ChannelStepOut(w, r, y.replicas[r], ShareArrival(sender, sh));
      OneMoves(w, y, y', r);
    case StateArrives(r, sender, x) =>
      ChannelStepOut(w, r, y.replicas[r], StateArrival(sender, x));
      OneMoves(w, y, y', r);
    case LinkChanges(r, n) =>
      ChannelStepOut(w, r, y.replicas[r], LinkCredit(n));
      OneMoves(w, y, y', r);
    case ClientReceives(c, fin) =>
  }

  lemma NotReset(w: World, m: PrimeMsg)
    requires LogValid(w) && FromLog(w, m)
    ensures !m.update.SystemReset?
  {
    var i: nat :| DeliveredAt(w, i, m);
    assert ValidEntry(w, i);
  }

  /** No answer is lost or mislabelled.  In every run, each answer a correct
      replica has taken from its master is out: as a share or as a state, signed by
      the replica, under the ordinal of the question it answers. */
  lemma {:induction false} EveryAnswerReleased(w: World, ys: seq<System>, acts: seq<Act>, n: nat)
    requires WorldValid(w) && Behavior(w, ys, acts) && n < |ys|
    ensures EachOut(w, ys[n])
    decreases n
  {
    hide AllOut, Step, SystemOk, Answered, Next, Enabled;
    if n == 0 {
      StartOut(w, ys[0]);
    } else {
      EveryAnswerReleased(w, ys, acts, n - 1);
      BehaviorOk(w, ys, acts, n - 1);
      NextOut(w, ys[n - 1], acts[n - 1]);
    }
  }

  lemma StartOut(w: World, y: System)
    requires Deployable(w.topo) && Start(w, y)
    ensures EachOut(w, y)
  {
  }
}
