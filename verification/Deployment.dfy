/** The whole deployment: replicas of which at most f are Byzantine, their
    SCADA masters, the network between them, and the clients. */
module Deployment {
  import opened Ordinals
  import opened Packets
  import opened ScadaSpec
  import opened Reference
  import opened ItrcSpec
  import opened StInvariants
  import opened ReplicaInvariants
  import opened ReplicaTracking

  // A correct replica: its channel, how many messages its master has read, and
  // how many of the master's answers the channel has taken.
  datatype Replica = Replica(channel: State, read: nat, taken: nat)

  // A client: the last ordinal it handed on, and everything it handed on.
  datatype Client = Client(applied: Ordinal, handed: seq<TcFinal>)

  datatype System = System(replicas: map<nat, Replica>, clients: seq<Client>)

  datatype Act =
    | PrimeDelivers(r: nat, m: PrimeMsg)
    | MasterReads(r: nat)
    | MasterAnswers(r: nat)
    | ShareArrives(r: nat, sender: nat, share: ShareMsg)
    | StateArrives(r: nat, sender: nat, xfer: StateXfer)
    | LinkChanges(r: nat, credit: nat)
    | ClientReceives(c: nat, fin: TcFinal)

  ghost predicate IsSystem(w: World, y: System) {
    forall r :: r in y.replicas <==> w.Correct(r)
  }

  // The partial signature is a Byzantine replica's own, junk, or was released
  // by the correct replica that alone can make it.
  predicate Known(y: System, g: PartialSig) {
    g.Genuine? && g.signer in y.replicas ==>
      exists k :: 0 <= k < |y.replicas[g.signer].channel.shares| &&
                  y.replicas[g.signer].channel.shares[k].sig == g
  }

  ghost function Answers(w: World, r: nat, rep: Replica): seq<SmReply>
    requires Deployable(w.topo)
  {
    Replies(w, r, rep.channel.toSm[..if rep.read <= |rep.channel.toSm| then rep.read else |rep.channel.toSm|])
  }

  // What can happen.  Correct replicas' messages are authentic; Byzantine ones
  // send anything.  Prime delivers entries of the log in any order and any number of times.
  ghost predicate Enabled(w: World, y: System, a: Act)
    requires Deployable(w.topo)
  {
    match a
    case PrimeDelivers(r, m) => r in y.replicas && FromLog(w, m)
    case MasterReads(r) => r in y.replicas && y.replicas[r].read < |y.replicas[r].channel.toSm|
    case MasterAnswers(r) => r in y.replicas && y.replicas[r].taken < |Answers(w, r, y.replicas[r])|
    case ShareArrives(r, sender, sh) =>
      && r in y.replicas && w.IsReplica(sender) && sender != r
      && (sender in y.replicas ==> sh in y.replicas[sender].channel.shares)
    case StateArrives(r, sender, x) =>
      && r in y.replicas && w.IsReplica(sender) && sender != r
      && (sender in y.replicas ==> x in y.replicas[sender].channel.states)
    case LinkChanges(r, _) => r in y.replicas
    case ClientReceives(c, fin) => c < |y.clients| && forall i | i in fin.sig :: w.IsReplica(i) && Known(y, fin.sig[i])
  }

  // ITRC_Client: a final must verify, carry a client message, and be newer than the last.
  function Receive(f: nat, c: Client, fin: TcFinal): Client {
    if !VerifyThresh(f, fin) || fin.payload.NoPayload? || Compare(fin.ord, c.applied) <= 0 then c
    else Client(fin.ord, c.handed + [fin])
  }

  function ReceiveAll(f: nat, c: Client, fins: seq<TcFinal>): Client {
    if fins == [] then c else Receive(f, ReceiveAll(f, c, fins[..|fins| - 1]), fins[|fins| - 1])
  }

  // The final verifies and carries a client message.
  predicate Acceptable(f: nat, fin: TcFinal) {
    VerifyThresh(f, fin) && !fin.payload.NoPayload?
  }

  // The k-th final is acceptable and newer than every acceptable one before it.
  predicate Newest(f: nat, fins: seq<TcFinal>, k: nat)
    requires k < |fins|
  {
    && Acceptable(f, fins[k]) && Less(ZERO, fins[k].ord)
    && forall j | 0 <= j < k && Acceptable(f, fins[j]) :: Less(fins[j].ord, fins[k].ord)
  }

  /** A final is handed on exactly when it is the newest acceptable one so far,
      whatever arrives and in whatever order. */
  lemma {:induction false} HandedOnExactly(f: nat, fins: seq<TcFinal>, k: nat)
    requires k < |fins|
    ensures var before := ReceiveAll(f, Client(ZERO, []), fins[..k]);
            var after := ReceiveAll(f, Client(ZERO, []), fins[..k + 1]);
            if Newest(f, fins, k) then after == Client(fins[k].ord, before.handed + [fins[k]]) else after == before
    decreases k
  {
    hide VerifyThresh;
    assert fins[..k + 1][..k] == fins[..k];
    AppliedIsNewest(f, fins, k);
  }

  // `applied` is the highest acceptable ordinal received.
  lemma {:induction false} AppliedIsNewest(f: nat, fins: seq<TcFinal>, k: nat)
    requires k <= |fins|
    ensures var c := ReceiveAll(f, Client(ZERO, []), fins[..k]);
            && (forall j | 0 <= j < k && Acceptable(f, fins[j]) :: !Less(c.applied, fins[j].ord))
            && (c.applied == ZERO || exists j :: 0 <= j < k && Acceptable(f, fins[j]) && fins[j].ord == c.applied)
    decreases k
  {
    hide VerifyThresh;
    if k > 0 {
      AppliedIsNewest(f, fins, k - 1);
      assert fins[..k][..k - 1] == fins[..k - 1];
    }
  }

  function WithChannel(y: System, r: nat, s: State): System
    requires r in y.replicas
  {
    y.(replicas := y.replicas[r := y.replicas[r].(channel := s)])
  }

  ghost function Next(w: World, y: System, a: Act): System
    requires Deployable(w.topo) && Enabled(w, y, a)
  {
    match a
    case PrimeDelivers(r, m) => WithChannel(y, r, Step(w.Cfg(r), y.replicas[r].channel, PrimeDelivery(m)))
    case MasterReads(r) => y.(replicas := y.replicas[r := y.replicas[r].(read := y.replicas[r].read + 1)])
    case MasterAnswers(r) =>
      var rep := y.replicas[r];
      if rep.channel.halted then y
      else
        var reply := Answers(w, r, rep)[rep.taken];
        var s := Step(w.Cfg(r), rep.channel, MasterReply(reply));
        y.(replicas := y.replicas[r := Replica(s, rep.read, rep.taken + 1)])
    case ShareArrives(r, sender, sh) =>
      WithChannel(y, r, Step(w.Cfg(r), y.replicas[r].channel, ShareArrival(sender, sh)))
    case StateArrives(r, sender, x) => WithChannel(y, r, Step(w.Cfg(r), y.replicas[r].channel, StateArrival(sender, x)))
    case LinkChanges(r, n) => WithChannel(y, r, Step(w.Cfg(r), y.replicas[r].channel, LinkCredit(n)))
    case ClientReceives(c, fin) => y.(clients := y.clients[c := Receive(w.f, y.clients[c], fin)])
  }

  ghost predicate Start(w: World, y: System) {
    && IsSystem(w, y)
    && (forall r | r in y.replicas :: y.replicas[r] == Replica(Initial(), 0, 0))
    && (forall c | 0 <= c < |y.clients| :: y.clients[c] == Client(ZERO, []))
  }

  // ys is a run of the acts.
  ghost predicate Behavior(w: World, ys: seq<System>, acts: seq<Act>)
    requires Deployable(w.topo)
  {
    && |ys| == |acts| + 1 && Start(w, ys[0])
    && forall n | 0 <= n < |acts| :: Enabled(w, ys[n], acts[n]) && ys[n + 1] == Next(w, ys[n], acts[n])
  }

  // ---- The invariant ----------------------------------------------------------------

  ghost predicate ReplicaOk(w: World, r: nat, rep: Replica)
    requires Deployable(w.topo)
  {
    && rep.read <= |rep.channel.toSm|
    && exists p: nat :: p <= |w.log| && At(w, r, rep.channel, p, rep.taken)
  }

  ghost predicate ClientOk(w: World, c: Client)
    requires Deployable(w.topo)
  {
    && c.applied == (if c.handed == [] then ZERO else c.handed[|c.handed| - 1].ord)
    && (forall i, j | 0 <= i < j < |c.handed| :: Less(c.handed[i].ord, c.handed[j].ord))
    && (forall i | 0 <= i < |c.handed| :: AllowedPayload(w, c.handed[i].ord, c.handed[i].payload))
  }

  ghost predicate SystemOk(w: World, y: System)
    requires Deployable(w.topo)
  {
    IsSystem(w, y) && ReplicasOk(w, y.replicas) && ClientsOk(w, y.clients)
  }

  ghost predicate ReplicasOk(w: World, reps: map<nat, Replica>)
    requires Deployable(w.topo)
  {
    forall r | r in reps :: ReplicaOk(w, r, reps[r])
  }

  ghost predicate ClientsOk(w: World, clients: seq<Client>)
    requires Deployable(w.topo)
  {
    forall c | 0 <= c < |clients| :: ClientOk(w, clients[c])
  }

  lemma StartOk(w: World, y: System)
    requires WorldValid(w) && Start(w, y)
    ensures SystemOk(w, y)
  {
    forall r | r in y.replicas ensures ReplicaOk(w, r, y.replicas[r]) {
      InitialTracks(w, r);
      InitialInv(w.Cfg(r));
      assert At(w, r, Initial(), 0, 0);
    }
  }

  // Messages to the master are only ever added.
  lemma ToSmGrows(cfg: Config, s: State, e: Event)
    requires !e.PrimeDelivery? || !e.m.update.SystemReset?
    ensures s.toSm <= Step(cfg, s, e).toSm
  {
    match e
    case PrimeDelivery(m) =>
      if !s.halted {
        var s1 := NoteFirst(s, m.ord);
        ProcessToSm(cfg, s1, m);
        FinishToSm(cfg, ProcessPrime(cfg, s1, m));
      }
    case StateArrival(sender, st) =>
      if !s.halted {
        var (q, complete) := InsertSt(cfg, s.recvd, s.applied, s.stq, st, sender);
        FinishToSm(cfg, if complete then Apply(cfg, s.(stq := q), st.ord) else s.(stq := q));
      }
    case _ =>
  }

  lemma ProcessToSm(cfg: Config, s: State, m: PrimeMsg)
    ensures s.toSm <= ProcessPrime(cfg, s, m).toSm
  {
    hide TakeUp, Duplicate, ValidFromPrime;
    TakeUpToSm(cfg, s, m.ord, m.update);
  }

  lemma TakeUpToSm(cfg: Config, s: State, o: Ordinal, u: Update)
    ensures s.toSm <= TakeUp(cfg, s, o, u).toSm
  {
    hide SkipPart, InsertSt, AgreedState;
  }

  lemma {:induction false} ReplayToSm(cfg: Config, s: State)
    ensures s.toSm <= Replay(cfg, s).toSm
    decreases |s.pending|
  {
    if s.pending != [] && !s.collecting && !s.halted {
      var m := s.pending[0];
      ProcessToSm(cfg, s, m);
      var s1 := if Less(s.recvd, m.ord) then ProcessPrime(cfg, s, m) else s;
      ReplayToSm(cfg, s1.(pending := s1.pending[1..]));
    }
  }

  lemma FinishToSm(cfg: Config, s: State)
    ensures s.toSm <= Finish(cfg, s).toSm
  {
    ReplayToSm(cfg, s.(completed := false));
  }

  // ---- Steps --------------------------------------------------------------------------

  lemma PrimeStepOk(w: World, r: nat, rep: Replica, m: PrimeMsg)
    requires WorldValid(w) && w.Correct(r) && ReplicaOk(w, r, rep) && FromLog(w, m)
    ensures ReplicaOk(w, r, rep.(channel := Step(w.Cfg(r), rep.channel, PrimeDelivery(m))))
  {
    hide At, OnPrime, OnMaster, OnShare, OnState, Answered;
    var s := rep.channel;
    var i: nat :| DeliveredAt(w, i, m);
    assert ValidEntry(w, i);
    if !s.halted {
      var p: nat :| p <= |w.log| && At(w, r, s, p, rep.taken);
      var p' := OnPrimeTracks(w, r, s, m, p, rep.taken);
      ToSmGrows(w.Cfg(r), s, PrimeDelivery(m));
    }
  }

  lemma StateStepOk(w: World, r: nat, rep: Replica, sender: nat, x: StateXfer)
    requires WorldValid(w) && w.Correct(r) && ReplicaOk(w, r, rep) && w.IsReplica(sender) && sender != r
    requires sender !in w.byz ==> TrueXfer(w, x)
    ensures ReplicaOk(w, r, rep.(channel := Step(w.Cfg(r), rep.channel, StateArrival(sender, x))))
  {
    hide At, OnPrime, OnMaster, OnShare, OnState, TrueXfer, LogValid, Answered;
    var s := rep.channel;
    if !s.halted {
      var p: nat :| p <= |w.log| && At(w, r, s, p, rep.taken);
      var p' := OnStateTracks(w, r, s, sender, x, p, rep.taken);
      ToSmGrows(w.Cfg(r), s, StateArrival(sender, x));
    }
  }

  lemma ShareStepOk(w: World, r: nat, rep: Replica, sender: nat, sh: ShareMsg)
    requires WorldValid(w) && w.Correct(r) && ReplicaOk(w, r, rep) && w.IsReplica(sender) && sender != r
    ensures ReplicaOk(w, r, rep.(channel := Step(w.Cfg(r), rep.channel, ShareArrival(sender, sh))))
  {
    hide At, OnPrime, OnMaster, OnShare, OnState, TrueXfer, LogValid, Answered;
    var s := rep.channel;
    if !s.halted {
      var p: nat :| p <= |w.log| && At(w, r, s, p, rep.taken);
      OnShareTracks(w, r, s, sender, sh, p, rep.taken);
      ToSmGrows(w.Cfg(r), s, ShareArrival(sender, sh));
    }
  }

  lemma LinkStepOk(w: World, r: nat, rep: Replica, n: nat)
    requires WorldValid(w) && w.Correct(r) && ReplicaOk(w, r, rep)
    ensures ReplicaOk(w, r, rep.(channel := Step(w.Cfg(r), rep.channel, LinkCredit(n))))
  {
    hide At, OnPrime, OnMaster, OnShare, OnState, LogValid, Answered;
    var s := rep.channel;
    if !s.halted {
      var p: nat :| p <= |w.log| && At(w, r, s, p, rep.taken);
      CreditKeeps(w, r, s, n, p, rep.taken);
    }
  }

  lemma AnswerStepOk(w: World, r: nat, rep: Replica)
    requires WorldValid(w) && w.Correct(r) && ReplicaOk(w, r, rep)
    requires rep.taken < |Answers(w, r, rep)| && !rep.channel.halted
    ensures var reply := Answers(w, r, rep)[rep.taken];
            ReplicaOk(w, r, Replica(Step(w.Cfg(r), rep.channel, MasterReply(reply)), rep.read, rep.taken + 1))
  {
    hide OnMaster, OnPrime, OnShare, OnState, Tracks, Inv, Replies, Tags, TrueReply, Answered, LogValid, Faithful;
    var s := rep.channel;
    var p: nat :| p <= |w.log| && At(w, r, s, p, rep.taken);
    TracksFaithful(w, r, s, p, rep.taken);
    NthAnswer(w, r, s.toSm, rep.read, rep.taken);
    var reply := Answers(w, r, rep)[rep.taken];
    OnMasterTracks(w, r, s, reply, p, rep.taken);
    ToSmGrows(w.Cfg(r), s, MasterReply(reply));
  }

  lemma TracksFaithful(w: World, r: nat, s: State, p: nat, n: nat)
    requires Deployable(w.topo) && Tracks(w, r, s, p, n)
    ensures Faithful(w, r, s.toSm)
  {
  }

  // The n-th answer after reading some messages is true of the n-th question.
  lemma NthAnswer(w: World, r: nat, msgs: seq<SmMsg>, read: nat, n: nat)
    requires WorldValid(w) && Faithful(w, r, msgs) && read <= |msgs| && n < |Replies(w, r, msgs[..read])|
    ensures n < |Tags(msgs)| && TrueReply(w, Tags(msgs)[n], Replies(w, r, msgs[..read])[n])
  {
    hide Replies, Tags, TrueReply, Faithful;
    RepliesPrefix(w, r, msgs, read);
    RepliesTrue(w, r, msgs);
    assert Replies(w, r, msgs[..read])[n] == Replies(w, r, msgs)[n];
  }

  // A correct replica's shares carry its own signature and payloads the reference allows.
  lemma SharesAreTrue(w: World, r: nat, rep: Replica, k: nat)
    requires WorldValid(w) && ReplicaOk(w, r, rep) && k < |rep.channel.shares|
    ensures var sh := rep.channel.shares[k];
            sh.sig == Genuine(r, sh.ord, sh.payload) && AllowedPayload(w, sh.ord, sh.payload)
  {
    var p: nat :| p <= |w.log| && At(w, r, rep.channel, p, rep.taken);
  }

  predicate Released(y: System, r: nat, o: Ordinal, p: Payload)
    requires r in y.replicas
  {
    exists k :: 0 <= k < |y.replicas[r].channel.shares|
                && y.replicas[r].channel.shares[k] == ShareMsg(o, p, Genuine(r, o, p))
  }

  lemma SomeCorrectSigner(w: World, fin: TcFinal) returns (r: nat)
    requires |w.byz| <= w.f && VerifyThresh(w.f, fin)
    ensures r in fin.sig && r !in w.byz && fin.sig[r] == Genuine(r, fin.ord, fin.payload)
  {
    if fin.sig.Keys <= w.byz {
      SubsetSize(fin.sig.Keys, w.byz);
    }
    r :| r in fin.sig && r !in w.byz;
  }

  /** Whatever verifies was released by some correct replica, so it is an answer
      the reference allows at that ordinal. */
  lemma AcceptedIsTrue(w: World, y: System, fin: TcFinal) returns (r: nat)
    requires WorldValid(w) && SystemOk(w, y) && VerifyThresh(w.f, fin)
    requires forall i | i in fin.sig :: w.IsReplica(i) && Known(y, fin.sig[i])
    ensures r in y.replicas && Released(y, r, fin.ord, fin.payload)
    ensures AllowedPayload(w, fin.ord, fin.payload)
  {
    hide ReplicaOk, AllowedPayload, LogValid, Answered, Deployable;
    r := SomeCorrectSigner(w, fin);
    assert Known(y, fin.sig[r]);
    var rep := y.replicas[r];
    var k :| 0 <= k < |rep.channel.shares| && rep.channel.shares[k].sig == fin.sig[r];
    SharesAreTrue(w, r, rep, k);
  }

  lemma HandOnOk(w: World, c: Client, fin: TcFinal)
    requires Deployable(w.topo) && ClientOk(w, c) && AllowedPayload(w, fin.ord, fin.payload) && Less(c.applied, fin.ord)
    ensures ClientOk(w, Client(fin.ord, c.handed + [fin]))
  {
    hide AllowedPayload;
    var handed := c.handed + [fin];
    forall i, j | 0 <= i < j < |handed| ensures Less(handed[i].ord, handed[j].ord) {
      if j == |c.handed| && i < j - 1 {
        assert Less(c.handed[i].ord, c.handed[j - 1].ord);
      }
    }
  }

  lemma ReceiveOk(w: World, y: System, c: Client, fin: TcFinal)
    requires WorldValid(w) && SystemOk(w, y) && ClientOk(w, c)
    requires forall i | i in fin.sig :: w.IsReplica(i) && Known(y, fin.sig[i])
    ensures ClientOk(w, Receive(w.f, c, fin))
  {
    hide ReplicasOk, AllowedPayload, LogValid, Answered, Deployable, ClientOk, Known;
    if VerifyThresh(w.f, fin) && Less(c.applied, fin.ord) {
      var r := AcceptedIsTrue(w, y, fin);
      HandOnOk(w, c, fin);
    }
  }

  lemma ReplicaChanges(w: World, y: System, r: nat, rep: Replica)
    requires Deployable(w.topo) && SystemOk(w, y) && r in y.replicas && ReplicaOk(w, r, rep)
    ensures SystemOk(w, y.(replicas := y.replicas[r := rep]))
  {
    ReplicaUpdated(w, y.replicas, r, rep);
  }

  lemma ReplicaUpdated(w: World, reps: map<nat, Replica>, r: nat, rep: Replica)
    requires Deployable(w.topo) && ReplicasOk(w, reps) && ReplicaOk(w, r, rep)
    ensures ReplicasOk(w, reps[r := rep])
  {
    var reps' := reps[r := rep];
    forall q | q in reps' ensures ReplicaOk(w, q, reps'[q]) {
    }
  }

  lemma ClientStepOk(w: World, y: System, c: nat, fin: TcFinal)
    requires WorldValid(w) && SystemOk(w, y) && Enabled(w, y, ClientReceives(c, fin))
    ensures SystemOk(w, Next(w, y, ClientReceives(c, fin)))
  {
    hide ClientOk, ReplicasOk, LogValid, Answered, Known, AllowedPayload;
    ReceiveOk(w, y, y.clients[c], fin);
    var y' := Next(w, y, ClientReceives(c, fin));
    forall d | 0 <= d < |y'.clients| ensures ClientOk(w, y'.clients[d]) {
    }
  }

  lemma PrimeActOk(w: World, y: System, r: nat, m: PrimeMsg)
    requires WorldValid(w) && SystemOk(w, y) && Enabled(w, y, PrimeDelivers(r, m))
    ensures SystemOk(w, Next(w, y, PrimeDelivers(r, m)))
  {
    PrimeStepOk(w, r, y.replicas[r], m);
    ReplicaChanges(w, y, r, y.replicas[r].(channel := Step(w.Cfg(r), y.replicas[r].channel, PrimeDelivery(m))));
  }

  lemma MasterActOk(w: World, y: System, r: nat)
    requires WorldValid(w) && SystemOk(w, y) && Enabled(w, y, MasterReads(r))
    ensures SystemOk(w, Next(w, y, MasterReads(r)))
  {
    ReadStepOk(w, r, y.replicas[r]);
    ReadsOne(w, y, r);
    ReplicaChanges(w, y, r, y.replicas[r].(read := y.replicas[r].read + 1));
  }

  lemma ReadsOne(w: World, y: System, r: nat)
    requires Deployable(w.topo) && Enabled(w, y, MasterReads(r))
    ensures Next(w, y, MasterReads(r))
              == y.(replicas := y.replicas[r := y.replicas[r].(read := y.replicas[r].read + 1)])
  {
  }

  lemma ReadStepOk(w: World, r: nat, rep: Replica)
    requires Deployable(w.topo) && ReplicaOk(w, r, rep) && rep.read < |rep.channel.toSm|
    ensures ReplicaOk(w, r, rep.(read := rep.read + 1))
  {
    var p: nat :| p <= |w.log| && At(w, r, rep.channel, p, rep.taken);
  }

  lemma AnswerActOk(w: World, y: System, r: nat)
    requires WorldValid(w) && SystemOk(w, y) && Enabled(w, y, MasterAnswers(r))
    ensures SystemOk(w, Next(w, y, MasterAnswers(r)))
  {
    hide ReplicaOk, Step, Replies, LogValid, Answered;
    var rep := y.replicas[r];
    if !rep.channel.halted {
      AnswerStepOk(w, r, rep);
      var reply := Answers(w, r, rep)[rep.taken];
      ReplicaChanges(w, y, r, Replica(Step(w.Cfg(r), rep.channel, MasterReply(reply)), rep.read, rep.taken + 1));
    }
  }

  lemma ShareActOk(w: World, y: System, r: nat, sender: nat, sh: ShareMsg)
    requires WorldValid(w) && SystemOk(w, y) && Enabled(w, y, ShareArrives(r, sender, sh))
    ensures SystemOk(w, Next(w, y, ShareArrives(r, sender, sh)))
  {
    ShareStepOk(w, r, y.replicas[r], sender, sh);
    ReplicaChanges(w, y, r, y.replicas[r].(channel := Step(w.Cfg(r), y.replicas[r].channel, ShareArrival(sender, sh))));
  }

  lemma StateActOk(w: World, y: System, r: nat, sender: nat, x: StateXfer)
    requires WorldValid(w) && SystemOk(w, y) && Enabled(w, y, StateArrives(r, sender, x))
    ensures SystemOk(w, Next(w, y, StateArrives(r, sender, x)))
  {
    if sender in y.replicas {
      StatesAreTrue(w, sender, y.replicas[sender], x);
    }
    StateStepOk(w, r, y.replicas[r], sender, x);
    ReplicaChanges(w, y, r, y.replicas[r].(channel := Step(w.Cfg(r), y.replicas[r].channel, StateArrival(sender, x))));
  }

  lemma LinkActOk(w: World, y: System, r: nat, n: nat)
    requires WorldValid(w) && SystemOk(w, y) && Enabled(w, y, LinkChanges(r, n))
    ensures SystemOk(w, Next(w, y, LinkChanges(r, n)))
  {
    LinkStepOk(w, r, y.replicas[r], n);
    ReplicaChanges(w, y, r, y.replicas[r].(channel := Step(w.Cfg(r), y.replicas[r].channel, LinkCredit(n))));
  }

  lemma NextOk(w: World, y: System, a: Act)
    requires WorldValid(w) && SystemOk(w, y) && Enabled(w, y, a)
    ensures SystemOk(w, Next(w, y, a))
  {
    hide SystemOk, Next, Enabled, WorldValid;
    match a
    case PrimeDelivers(r, m) => PrimeActOk(w, y, r, m);
    case MasterReads(r) => MasterActOk(w, y, r);
    case MasterAnswers(r) => AnswerActOk(w, y, r);
    case ShareArrives(r, sender, sh) => ShareActOk(w, y, r, sender, sh);
    case StateArrives(r, sender, x) => StateActOk(w, y, r, sender, x);
    case LinkChanges(r, n) => LinkActOk(w, y, r, n);
    case ClientReceives(c, fin) => ClientStepOk(w, y, c, fin);
  }

  lemma StatesAreTrue(w: World, r: nat, rep: Replica, x: StateXfer)
    requires WorldValid(w) && ReplicaOk(w, r, rep) && x in rep.channel.states
    ensures TrueXfer(w, x)
  {
    var p: nat :| p <= |w.log| && At(w, r, rep.channel, p, rep.taken);
  }

  lemma {:induction false} BehaviorOk(w: World, ys: seq<System>, acts: seq<Act>, n: nat)
    requires WorldValid(w) && Behavior(w, ys, acts) && n < |ys|
    ensures SystemOk(w, ys[n])
    decreases n
  {
    if n == 0 {
      StartOk(w, ys[0]);
    } else {
      BehaviorOk(w, ys, acts, n - 1);
      NextOk(w, ys[n - 1], acts[n - 1]);
    }
  }

  // ---- Theorems ------------------------------------------------------------------------

  /** End-to-end safety.  In every run with at most f Byzantine replicas, a client
      hands on messages with strictly increasing ordinals, each carrying an answer
      the reference execution allows there: its own, wherever the log fixes one. */
  lemma ClientSafety(w: World, ys: seq<System>, acts: seq<Act>, n: nat, c: nat)
    requires WorldValid(w) && Behavior(w, ys, acts) && n < |ys| && c < |ys[n].clients|
    ensures var handed := ys[n].clients[c].handed;
            && (forall i, j | 0 <= i < j < |handed| :: Less(handed[i].ord, handed[j].ord))
            && (forall i | 0 <= i < |handed| :: AllowedPayload(w, handed[i].ord, handed[i].payload))
            && (forall i | 0 <= i < |handed| && FixedOrd(w, handed[i].ord) ::
                  TruePayload(w, handed[i].ord, handed[i].payload))
  {
    hide TruePayload, AllowedPayload, FixedOrd, LogValid, Answered;
    BehaviorOk(w, ys, acts, n);
    var handed := ys[n].clients[c].handed;
    forall i | 0 <= i < |handed| && FixedOrd(w, handed[i].ord)
      ensures TruePayload(w, handed[i].ord, handed[i].payload)
    {
      AllowedIsTrue(w, handed[i].ord, handed[i].payload);
    }
  }

  /** Any two clients agree on every ordinal whose answer the log fixes, even at
      different times of a run. */
  lemma ClientsAgree(w: World, ys: seq<System>, acts: seq<Act>,
                     n: nat, c: nat, i: nat, n': nat, c': nat, i': nat)
    requires WorldValid(w) && Behavior(w, ys, acts) && n < |ys| && n' < |ys|
    requires c < |ys[n].clients| && i < |ys[n].clients[c].handed|
    requires c' < |ys[n'].clients| && i' < |ys[n'].clients[c'].handed|
    requires Same(ys[n].clients[c].handed[i].ord, ys[n'].clients[c'].handed[i'].ord)
    requires FixedOrd(w, ys[n].clients[c].handed[i].ord)
    ensures ys[n].clients[c].handed[i].payload == ys[n'].clients[c'].handed[i'].payload
  {
    hide TruePayload, AllowedPayload, FixedOrd, LogValid, Answered;
    ClientSafety(w, ys, acts, n, c);
    ClientSafety(w, ys, acts, n', c');
    var a, b := ys[n].clients[c].handed[i], ys[n'].clients[c'].handed[i'];
    AllowedOrdinal(w, a.ord, a.payload, b.ord, b.payload);
    TruePayloadUnique(w, a.ord, a.payload, b.ord, b.payload);
  }

  /** Joining by transfer equals having run from the start.  Two correct replicas
      that have taken up the same ordinals and are not waiting for a state have
      the same progress, switches, transformers and PNNL data, whichever of them
      executed everything and whichever installed states.  Once an update has run
      process() operators see the same too. */
  lemma JoinEqualsFromStart(w: World, ys: seq<System>, acts: seq<Act>, n: nat, n': nat, r: nat, r': nat)
    requires WorldValid(w) && Behavior(w, ys, acts) && n < |ys| && n' < |ys|
    requires r in ys[n].replicas && r' in ys[n'].replicas
    requires var s, s' := ys[n].replicas[r].channel, ys[n'].replicas[r'].channel;
             Same(s.recvd, s'.recvd) && !s.collecting && !s'.collecting
    ensures var s, s' := ys[n].replicas[r].channel, ys[n'].replicas[r'].channel;
            var m, m' := SmAfter(w, r, s.toSm), SmAfter(w, r', s'.toSm);
            && s.progress == s'.progress && m.sw == m'.sw && m.tx == m'.tx
            && m.pnnl[PNNL_DATA_PADDING..] == m'.pnnl[PNNL_DATA_PADDING..]
            && forall p | 0 <= p <= |w.log| && OrdAt(w.log, p) == s.recvd ::
                 PoweredAtStart(w.topo) || ProcessedBefore(w, p) ==> m.stat == m'.stat
  {
    hide ReplicaOk, SmAfter, RefAt, PoweredAtStart, ProcessedBefore, LogValid, Answered;
    BehaviorOk(w, ys, acts, n);
    BehaviorOk(w, ys, acts, n');
    var rep, rep' := ys[n].replicas[r], ys[n'].replicas[r'];
    var p := PositionOf(w, r, rep);
    var p' := PositionOf(w, r', rep');
    OrdAtInjective(w, p, p');
    RefSettledExactly(w, p);
    forall q | 0 <= q <= |w.log| && OrdAt(w.log, q) == rep.channel.recvd ensures q == p {
      OrdAtInjective(w, q, p);
    }
  }

  lemma PositionOf(w: World, r: nat, rep: Replica) returns (p: nat)
    requires WorldValid(w) && ReplicaOk(w, r, rep)
    ensures p <= |w.log| && rep.channel.recvd == OrdAt(w.log, p)
    ensures !rep.channel.collecting ==>
              && rep.channel.progress == RefAt(w, p).progress
              && Near(w.topo, SmAfter(w, r, rep.channel.toSm), RefAt(w, p).sm)
              && AllAsked(w, r, rep.channel.toSm, p)
  {
    p :| p <= |w.log| && At(w, r, rep.channel, p, rep.taken);
  }

  /** Nothing is left unasked.  A correct replica that has taken up the first p
      entries and waits for no state put to its master exactly what the entries
      since its last installed state (or the start) prescribe, in order: every
      executed update, and every transfer ordered for another replica. */
  lemma EverythingAsked(w: World, ys: seq<System>, acts: seq<Act>, n: nat, r: nat) returns (q: nat, p: nat)
    requires WorldValid(w) && Behavior(w, ys, acts) && n < |ys|
    requires r in ys[n].replicas && !ys[n].replicas[r].channel.collecting
    ensures var s := ys[n].replicas[r].channel;
            && p <= |w.log| && s.recvd == OrdAt(w.log, p)
            && AskedFrom(w, r, s.toSm, q, p)
  {
    hide AskedFrom, At;
    BehaviorOk(w, ys, acts, n);
    p := PositionOf(w, r, ys[n].replicas[r]);
    q :| AskedFrom(w, r, ys[n].replicas[r].channel.toSm, q, p);
  }

  // Two updates of one client forwarded to the master, the first before the second.
  predicate ForwardedBefore(msgs: seq<SmMsg>, a: nat, b: nat) {
    && a < b < |msgs| && msgs[a].Forward? && msgs[b].Forward?
    && msgs[a].update.FromClient() && msgs[b].update.FromClient()
    && msgs[a].update.Client() == msgs[b].update.Client()
  }

  /** Exactly-once execution.  Of each client, the updates a correct replica ever
      forwards to its master carry strictly increasing sequence pairs, however
      Prime's messages were repeated or reordered and whatever states were installed. */
  lemma ExactlyOnce(w: World, ys: seq<System>, acts: seq<Act>, n: nat, r: nat, a: nat, b: nat)
    requires WorldValid(w) && Behavior(w, ys, acts) && n < |ys| && r in ys[n].replicas
    requires ForwardedBefore(ys[n].replicas[r].channel.toSm, a, b)
    ensures var msgs := ys[n].replicas[r].channel.toSm;
            PairLess(msgs[a].update.seqp, msgs[b].update.seqp)
  {
    BehaviorOk(w, ys, acts, n);
    ForwardsIncrease(w, r, ys[n].replicas[r], a, b);
  }

  lemma ForwardsIncrease(w: World, r: nat, rep: Replica, a: nat, b: nat)
    requires WorldValid(w) && ReplicaOk(w, r, rep) && ForwardedBefore(rep.channel.toSm, a, b)
    ensures PairLess(rep.channel.toSm[a].update.seqp, rep.channel.toSm[b].update.seqp)
  {
    var i := ForwardedEntry(w, r, rep, a);
    var j := ForwardedEntry(w, r, rep, b);
    TagsOfForwards(w, r, rep, a, b);
    EntriesOrdered(w, i, j);
    ExecutedIncreases(w, i, j);
  }

  lemma EntriesOrdered(w: World, i: nat, j: nat)
    requires LogValid(w) && i < |w.log| && j < |w.log| && Less(w.log[i].ord, w.log[j].ord)
    ensures i < j
  {
    if j < i {
      LogIncreases(w, j + 1, i + 1);
    }
  }

  lemma ForwardedEntry(w: World, r: nat, rep: Replica, a: nat) returns (i: nat)
    requires WorldValid(w) && ReplicaOk(w, r, rep) && a < |rep.channel.toSm| && rep.channel.toSm[a].Forward?
    ensures i < |w.log| && ExecutedAt(w, i) && w.log[i] == PrimeMsg(rep.channel.toSm[a].at, rep.channel.toSm[a].update)
  {
    var p: nat :| p <= |w.log| && At(w, r, rep.channel, p, rep.taken);
    i := FaithfulAt(w, r, rep.channel.toSm, a);
  }

  lemma {:induction false} FaithfulAt(w: World, r: nat, msgs: seq<SmMsg>, a: nat) returns (i: nat)
    requires Deployable(w.topo) && Faithful(w, r, msgs) && a < |msgs|
    ensures i < |w.log| && MsgAt(w, r, i, SmAfter(w, r, msgs[..a]), msgs[a])
    decreases |msgs|
  {
    var init := msgs[..|msgs| - 1];
    if a == |msgs| - 1 {
      i :| 0 <= i < |w.log| && MsgAt(w, r, i, SmAfter(w, r, init), msgs[a]);
    } else {
      i := FaithfulAt(w, r, init, a);
      assert init[..a] == msgs[..a];
    }
  }

  lemma TagsOfForwards(w: World, r: nat, rep: Replica, a: nat, b: nat)
    requires WorldValid(w) && ReplicaOk(w, r, rep) && a < b < |rep.channel.toSm|
    requires Asks(rep.channel.toSm[a]) && Asks(rep.channel.toSm[b])
    ensures Less(rep.channel.toSm[a].at, rep.channel.toSm[b].at)
  {
    var p: nat :| p <= |w.log| && At(w, r, rep.channel, p, rep.taken);
    var i := TagIndex(rep.channel.toSm, a);
    var j := TagIndex(rep.channel.toSm, b);
    TagsShorter(rep.channel.toSm, a, b);
  }

  // Where a question's ordinal stands among the tags.
  lemma {:induction false} TagIndex(msgs: seq<SmMsg>, a: nat) returns (i: nat)
    requires a < |msgs| && Asks(msgs[a])
    ensures i == |Tags(msgs[..a])| && i < |Tags(msgs)| && Tags(msgs)[i] == msgs[a].at
    decreases |msgs|
  {
    var init := msgs[..|msgs| - 1];
    if a == |msgs| - 1 {
      i := |Tags(init)|;
    } else {
      i := TagIndex(init, a);
      assert init[..a] == msgs[..a];
    }
  }

  lemma TagsShorter(msgs: seq<SmMsg>, a: nat, b: nat)
    requires a < b < |msgs| && Asks(msgs[a])
    ensures |Tags(msgs[..a])| < |Tags(msgs[..b])|
  {
    var i := TagIndex(msgs[..b], a);
    assert msgs[..b][..a] == msgs[..a];
  }
}
