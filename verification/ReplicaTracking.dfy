/** A correct replica tracks the reference execution: what it forwards to its
    SCADA master, and what its master holds, is what the ordered log prescribes. */
module ReplicaTracking {
  import opened Ordinals
  import opened Packets
  import opened Slots
  import opened StateCodec
  import opened ScadaSpec
  import opened Reference
  import opened ItrcSpec
  import opened StInvariants
  import opened ReplicaInvariants

  // ---- The SCADA master fed with a sequence of messages -----------------------------

  ghost function SmAfter(w: World, r: nat, msgs: seq<SmMsg>): (sm: Sm)
    requires Deployable(w.topo)
    ensures SmValid(w.topo, sm)
  {
    if msgs == [] then InitialSm(w.topo)
    else SmStep(w.topo, r, SmAfter(w, r, msgs[..|msgs| - 1]), msgs[|msgs| - 1]).0
  }

  ghost function Replies(w: World, r: nat, msgs: seq<SmMsg>): seq<SmReply>
    requires Deployable(w.topo)
  {
    if msgs == [] then []
    else
      var init, m := msgs[..|msgs| - 1], msgs[|msgs| - 1];
      var reply := SmStep(w.topo, r, SmAfter(w, r, init), m).1;
      Replies(w, r, init) + if reply.Some? then [reply.value] else []
  }

  // Messages that the channel expects an answer to.
  predicate Asks(m: SmMsg) { m.Forward? || m.StateRequest? }

  // The ordinals recorded for the questions, in order.
  function Tags(msgs: seq<SmMsg>): seq<Ordinal> {
    if msgs == [] then []
    else Tags(msgs[..|msgs| - 1]) + if Asks(msgs[|msgs| - 1]) then [msgs[|msgs| - 1].at] else []
  }

  // The message to a master in state `sm` is the one the i-th entry prescribes.
  ghost predicate MsgAt(w: World, r: nat, i: nat, sm: Sm, m: SmMsg)
    requires Deployable(w.topo) && i < |w.log|
  {
    match m
    case Forward(o, u) => w.log[i] == PrimeMsg(o, u) && ExecutedAt(w, i) && Near(w.topo, sm, RefAt(w, i).sm)
    case StateRequest(o, t, latest) =>
      w.log[i] == PrimeMsg(o, StateTransfer(t)) && latest == RefAt(w, i).progress && Near(w.topo, sm, RefAt(w, i).sm)
    case InstallState(x) => XferAt(w, i, x) && x.target == r
    case ResetMaster => false
  }

  ghost predicate Faithful(w: World, r: nat, msgs: seq<SmMsg>)
    requires Deployable(w.topo)
  {
    msgs != [] ==>
      var init, m := msgs[..|msgs| - 1], msgs[|msgs| - 1];
      Faithful(w, r, init) && exists i :: 0 <= i < |w.log| && MsgAt(w, r, i, SmAfter(w, r, init), m)
  }

  lemma SmAfterAppend(w: World, r: nat, msgs: seq<SmMsg>, m: SmMsg)
    requires Deployable(w.topo)
    ensures SmAfter(w, r, msgs + [m]) == SmStep(w.topo, r, SmAfter(w, r, msgs), m).0
    ensures Tags(msgs + [m]) == Tags(msgs) + if Asks(m) then [m.at] else []
  {
    assert (msgs + [m])[..|msgs|] == msgs;
  }

  lemma FaithfulAppend(w: World, r: nat, msgs: seq<SmMsg>, m: SmMsg, i: nat)
    requires Deployable(w.topo) && Faithful(w, r, msgs)
    requires i < |w.log| && MsgAt(w, r, i, SmAfter(w, r, msgs), m)
    ensures Faithful(w, r, msgs + [m])
  {
    var all := msgs + [m];
    assert all[..|all| - 1] == msgs && all[|all| - 1] == m;
    assert MsgAt(w, r, i, SmAfter(w, r, all[..|all| - 1]), all[|all| - 1]);
  }

  // ---- Answers ---------------------------------------------------------------------

  ghost predicate TrueReply(w: World, o: Ordinal, reply: SmReply)
    requires Deployable(w.topo)
  {
    match reply
    case Scada(p) => AllowedPayload(w, o, p)
    case PackedState(t, latest, n, bytes) => TrueXfer(w, StateXfer(o, t, latest, n, bytes))
  }

  // A master near the reference gives an allowed answer to an executed entry.
  lemma NearAnswer(w: World, i: nat, sm: Sm)
    requires Deployable(w.topo) && Answered(w) && ExecutedAt(w, i) && SmValid(w.topo, sm)
    requires Near(w.topo, sm, RefAt(w, i).sm)
    ensures var reply := OnUpdate(w.topo, sm, w.log[i].update).1;
            reply.Some? && AllowedAt(w, i, reply.value)
  {
    hide Near, RefAt, Executes, Process;
    var b, u := RefAt(w, i).sm, w.log[i].update;
    OnUpdateNear(w.topo, sm, b, u);
    SameAnswered(w.topo, b, u);
    assert PayloadAt(w, i).Some?;
  }

  lemma OneReplyTrue(w: World, r: nat, i: nat, sm: Sm, m: SmMsg)
    requires WorldValid(w) && i < |w.log| && SmValid(w.topo, sm) && MsgAt(w, r, i, sm, m)
    ensures var reply := SmStep(w.topo, r, sm, m).1;
            && (reply.Some? <==> Asks(m))
            && (Asks(m) ==> TrueReply(w, m.at, reply.value))
  {
    match m
    case Forward(o, u) =>
      NearAnswer(w, i, sm);
    case StateRequest(o, t, latest) =>
      PackNear(w.topo, sm, RefAt(w, i).sm);
      var p := PackedReply(w.topo, RefAt(w, i).sm, t, latest);
      assert XferAt(w, i, StateXfer(o, t, latest, p.numClients, p.state));
    case InstallState(x) =>
  }

  /** Every question gets its own answer, in order, and one the reference allows there. */
  lemma {:induction false} RepliesTrue(w: World, r: nat, msgs: seq<SmMsg>)
    requires WorldValid(w) && Faithful(w, r, msgs)
    ensures |Replies(w, r, msgs)| == |Tags(msgs)|
    ensures forall n | 0 <= n < |Tags(msgs)| :: TrueReply(w, Tags(msgs)[n], Replies(w, r, msgs)[n])
    decreases |msgs|
  {
    hide TrueReply, SmStep, MsgAt, LogValid, Answered;
    if msgs != [] {
      var init, m := msgs[..|msgs| - 1], msgs[|msgs| - 1];
      RepliesTrue(w, r, init);
      var i :| 0 <= i < |w.log| && MsgAt(w, r, i, SmAfter(w, r, init), m);
      OneReplyTrue(w, r, i, SmAfter(w, r, init), m);
    }
  }

  lemma {:induction false} RepliesPrefix(w: World, r: nat, msgs: seq<SmMsg>, n: nat)
    requires Deployable(w.topo) && n <= |msgs|
    ensures Replies(w, r, msgs[..n]) <= Replies(w, r, msgs)
    ensures Tags(msgs[..n]) <= Tags(msgs)
    decreases |msgs|
  {
    if n == |msgs| {
      assert msgs[..n] == msgs;
    } else {
      RepliesPrefix(w, r, msgs[..|msgs| - 1], n);
      assert msgs[..|msgs| - 1][..n] == msgs[..n];
    }
  }

  // ---- Questions ---------------------------------------------------------------------

  // What the i-th entry makes a replica ask its master: an executed update and a
  // transfer for another replica are put to it, nothing else is.
  ghost function Prescribed(w: World, r: nat, i: nat): seq<SmMsg>
    requires Deployable(w.topo) && i < |w.log|
  {
    var o, u := w.log[i].ord, w.log[i].update;
    if ExecutedAt(w, i) then [Forward(o, u)]
    else if u.StateTransfer? && u.machine != r && w.IsReplica(u.machine) then
      [StateRequest(o, u.machine, RefAt(w, i).progress)]
    else []
  }

  // All of that for the entries from the q-th up to the p-th.
  ghost function Asked(w: World, r: nat, q: nat, p: nat): seq<SmMsg>
    requires Deployable(w.topo) && q <= p <= |w.log|
  {
    if q == p then [] else Asked(w, r, q, p - 1) + Prescribed(w, r, p - 1)
  }

  // After the state of the entry before the q-th (or, with q = 0, from the start)
  // the master got exactly what the entries from the q-th on prescribe.
  ghost predicate AskedFrom(w: World, r: nat, msgs: seq<SmMsg>, q: nat, p: nat)
    requires Deployable(w.topo) && p <= |w.log|
  {
    && q <= p
    && exists pre :: msgs == pre + Asked(w, r, q, p) && JumpedTo(w, r, pre, q)
  }

  ghost predicate JumpedTo(w: World, r: nat, pre: seq<SmMsg>, q: nat)
    requires Deployable(w.topo) && q <= |w.log|
  {
    if q == 0 then pre == []
    else
      && pre != [] && pre[|pre| - 1].InstallState?
      && XferAt(w, q - 1, pre[|pre| - 1].xfer) && pre[|pre| - 1].xfer.target == r
  }

  ghost predicate AllAsked(w: World, r: nat, msgs: seq<SmMsg>, p: nat)
    requires Deployable(w.topo) && p <= |w.log|
  {
    exists q: nat :: AskedFrom(w, r, msgs, q, p)
  }

  lemma AskNext(w: World, r: nat, msgs: seq<SmMsg>, p: nat)
    requires Deployable(w.topo) && p < |w.log| && AllAsked(w, r, msgs, p)
    ensures AllAsked(w, r, msgs + Prescribed(w, r, p), p + 1)
  {
    hide Prescribed, JumpedTo;
    var q: nat :| AskedFrom(w, r, msgs, q, p);
    var pre :| msgs == pre + Asked(w, r, q, p) && JumpedTo(w, r, pre, q);
    assert msgs + Prescribed(w, r, p) == pre + Asked(w, r, q, p + 1);
    assert AskedFrom(w, r, msgs + Prescribed(w, r, p), q, p + 1);
  }

  lemma AskAfterJump(w: World, r: nat, msgs: seq<SmMsg>, x: StateXfer, i: nat)
    requires Deployable(w.topo) && i < |w.log| && XferAt(w, i, x) && x.target == r
    ensures AllAsked(w, r, msgs + [InstallState(x)], i + 1)
  {
    hide XferAt;
    var all := msgs + [InstallState(x)];
    assert all == all + Asked(w, r, i + 1, i + 1);
    assert JumpedTo(w, r, all, i + 1);
    assert AskedFrom(w, r, all, i + 1, i + 1);
  }

  lemma AskNothingYet(w: World, r: nat)
    requires Deployable(w.topo)
    ensures AllAsked(w, r, [], 0)
  {
    var none: seq<SmMsg> := [];
    assert none == none + Asked(w, r, 0, 0);
    assert JumpedTo(w, r, none, 0);
    assert AskedFrom(w, r, [], 0, 0);
  }

  // ---- Tracking -------------------------------------------------------------------------

  // What Prime delivers is an entry of the log; no-ops differ in the replica they name.
  ghost predicate DeliveredAt(w: World, i: nat, m: PrimeMsg) {
    i < |w.log| && m.ord == w.log[i].ord && (m.update == w.log[i].update || (m.update.NoOp? && w.log[i].update.NoOp?))
  }

  ghost predicate FromLog(w: World, m: PrimeMsg) {
    exists i: nat :: DeliveredAt(w, i, m)
  }

  ghost predicate StatesTrue(w: World, q: seq<StSlot>)
    requires Deployable(w.topo)
  {
    forall k, j | 0 <= k < |q| && j in q[k].body.states && j !in w.byz :: TrueXfer(w, q[k].body.states[j])
  }

  // The replica's progress is the reference's after p entries, its master (once it
  // has read everything sent to it) is near the reference's and was asked all it
  // should have been, unless the replica waits for a state.
  ghost predicate Synced(w: World, r: nat, s: State, p: nat)
    requires Deployable(w.topo)
  {
    p <= |w.log| && Faithful(w, r, s.toSm) && SyncedAt(w, r, s.collecting, s.progress, s.toSm, p)
  }

  ghost predicate SyncedAt(w: World, r: nat, collecting: bool, progress: Progress, toSm: seq<SmMsg>, p: nat)
    requires Deployable(w.topo) && p <= |w.log|
  {
    if collecting then p > 0 && w.log[p - 1].update == StateTransfer(r)
    else
      && progress == RefAt(w, p).progress && Near(w.topo, SmAfter(w, r, toSm), RefAt(w, p).sm)
      && AllAsked(w, r, toSm, p)
  }

  // Questions are increasing and up to entry p; the last ones, from the n-th on,
  // are exactly those whose answer is still outstanding.
  ghost predicate Aligned(w: World, s: State, p: nat, n: nat) {
    p <= |w.log| && AlignedTo(Tags(s.toSm), s.ordq, OrdAt(w.log, p), n)
  }

  predicate AlignedTo(tags: seq<Ordinal>, ordq: seq<Ordinal>, at: Ordinal, n: nat) {
    && n <= |tags| && Increasing(tags)
    && (forall k | 0 <= k < |tags| :: !Less(at, tags[k]))
    && ordq == tags[n..]
  }

  ghost predicate Inputs(w: World, s: State)
    requires Deployable(w.topo)
  {
    StatesTrue(w, s.stq) && BufferTrue(w, s.pending)
  }

  ghost predicate BufferTrue(w: World, ms: seq<PrimeMsg>) {
    forall k | 0 <= k < |ms| :: FromLog(w, ms[k])
  }

  // Everything the replica signed is what the reference allows.
  ghost predicate Signed(w: World, s: State)
    requires Deployable(w.topo)
  {
    SharesTrue(w, s.shares) && XfersTrue(w, s.states)
  }

  ghost predicate SharesTrue(w: World, shares: seq<ShareMsg>)
    requires Deployable(w.topo)
  {
    forall k | 0 <= k < |shares| :: AllowedPayload(w, shares[k].ord, shares[k].payload)
  }

  ghost predicate XfersTrue(w: World, xs: seq<StateXfer>)
    requires Deployable(w.topo)
  {
    forall k | 0 <= k < |xs| :: TrueXfer(w, xs[k])
  }

  ghost predicate Tracks(w: World, r: nat, s: State, p: nat, n: nat)
    requires Deployable(w.topo)
  {
    Synced(w, r, s, p) && Aligned(w, s, p, n) && Inputs(w, s) && Signed(w, s)
  }

  lemma InitialTracks(w: World, r: nat)
    requires WorldValid(w)
    ensures Tracks(w, r, Initial(), 0, 0)
  {
    AskNothingYet(w, r);
  }

  // Moving past an entry that prescribes nothing changes nothing.
  lemma StaysSynced(w: World, r: nat, s: State, p: nat, n: nat)
    requires WorldValid(w) && Tracks(w, r, s, p, n) && !s.collecting && p < |w.log|
    requires !ExecutedAt(w, p) && Prescribed(w, r, p) == []
    ensures Tracks(w, r, s, p + 1, n)
  {
    hide AllAsked, Prescribed, Near, SmAfter, Faithful, StatesTrue, BufferTrue, SharesTrue, XfersTrue, LogValid,
      Answered;
    LaterBound(w, s, p, p + 1, n);
    AskNext(w, r, s.toSm, p);
    assert s.toSm + [] == s.toSm;
  }

  lemma LaterBound(w: World, s: State, p: nat, p': nat, n: nat)
    requires LogValid(w) && Aligned(w, s, p, n) && p <= p' <= |w.log|
    ensures Aligned(w, s, p', n)
  {
    if p < p' {
      LogIncreases(w, p, p');
    }
  }

  // Asking the master about entry p.
  lemma AskKeepsAlignment(w: World, s: State, p: nat, n: nat, m: SmMsg, s': State)
    requires LogValid(w) && Aligned(w, s, p, n) && p < |w.log| && Asks(m) && m.at == w.log[p].ord
    requires s'.toSm == s.toSm + [m] && s'.ordq == s.ordq + [m.at]
    ensures Aligned(w, s', p + 1, n)
  {
    LogIncreases(w, p, p + 1);
    var tags := Tags(s.toSm);
    assert (s.toSm + [m])[..|s.toSm|] == s.toSm;
    assert Tags(s'.toSm) == tags + [m.at];
  }

  lemma ForwardSynced(w: World, r: nat, s: State, p: nat, o: Ordinal, u: Update)
    requires WorldValid(w) && Synced(w, r, s, p) && !s.collecting
    requires p < |w.log| && w.log[p] == PrimeMsg(o, u) && ExecutedAt(w, p)
    ensures Synced(w, r, s.(progress := s.progress[u.Client() := u.seqp], toSm := s.toSm + [Forward(o, u)]), p + 1)
  {
    var m := Forward(o, u);
    assert MsgAt(w, r, p, SmAfter(w, r, s.toSm), m);
    FaithfulAppend(w, r, s.toSm, m, p);
    SmAfterAppend(w, r, s.toSm, m);
    OnUpdateNear(w.topo, SmAfter(w, r, s.toSm), RefAt(w, p).sm, u);
    AskNext(w, r, s.toSm, p);
  }

  lemma RequestSynced(w: World, r: nat, s: State, p: nat, o: Ordinal, t: nat)
    requires WorldValid(w) && Synced(w, r, s, p) && !s.collecting
    requires p < |w.log| && w.log[p] == PrimeMsg(o, StateTransfer(t)) && t != r && w.IsReplica(t)
    ensures Synced(w, r, s.(toSm := s.toSm + [StateRequest(o, t, s.progress)]), p + 1)
  {
    hide LogValid, Answered, SmAfter, Faithful, Tags, Pack, Near;
    var m := StateRequest(o, t, s.progress);
    assert MsgAt(w, r, p, SmAfter(w, r, s.toSm), m);
    FaithfulAppend(w, r, s.toSm, m, p);
    SmAfterAppend(w, r, s.toSm, m);
    AskNext(w, r, s.toSm, p);
  }

  // ---- Completed transfers -----------------------------------------------------------------

  /** Of f + 1 reporters one is correct, so an agreed state is the true one. */
  lemma AgreedIsTrue(w: World, cfg: Config, slot: StSlot, st: StateXfer, q: seq<StSlot>)
    requires WorldValid(w) && cfg.f == w.f && slot in q && StatesTrue(w, q) && Agreed(cfg, slot.body, st)
    ensures TrueXfer(w, st)
  {
    var reporters := Reporting(slot.body.states, st);
    if reporters <= w.byz {
      SubsetSize(reporters, w.byz);
    }
    var j :| j in reporters && j !in w.byz;
    var k :| 0 <= k < |q| && q[k] == slot;
    assert q[k].body.states[j] == st;
  }

  // The state agreed on for entry i is the one the reference prescribes there.
  lemma AgreedStateTrue(w: World, r: nat, s: State, o: Ordinal, at: Ordinal, i: nat)
    requires WorldValid(w) && StatesTrue(w, s.stq)
    requires StInvMid(w.Cfg(r), s.stq, s.collecting, at) && Complete(w.Cfg(r), s.stq, o)
    requires i < |w.log| && Same(o, w.log[i].ord) && w.log[i].update == StateTransfer(r)
    ensures AgreedState(s.stq, o).Some?
    ensures XferAt(w, i, AgreedState(s.stq, o).value) && AgreedState(s.stq, o).value.target == r
  {
    var cfg := w.Cfg(r);
    CompleteHasState(cfg, s.stq, o);
    var slot, x := s.stq[Position(s.stq, o)], AgreedState(s.stq, o).value;
    AgreedIsTrue(w, cfg, slot, x, s.stq);
    var j :| 0 <= j < |w.log| && XferAt(w, j, x);
    EntryUnique(w, i, j);
  }

  lemma DropKeepsStates(w: World, q: seq<StSlot>, o: Ordinal)
    requires Deployable(w.topo) && StatesTrue(w, q) && Sorted(q)
    ensures StatesTrue(w, DropUpTo(q, o))
  {
    DropUpToShape(q, o);
  }

  lemma ApplySynced(w: World, r: nat, s: State, o: Ordinal, at: Ordinal, i: nat, n: nat)
    requires WorldValid(w) && w.Correct(r)
    requires StInvMid(w.Cfg(r), s.stq, s.collecting, at) && Complete(w.Cfg(r), s.stq, o)
    requires i < |w.log| && Same(o, w.log[i].ord) && w.log[i].update == StateTransfer(r)
    requires Faithful(w, r, s.toSm) && Aligned(w, s, i + 1, n) && Inputs(w, s) && Signed(w, s)
    ensures Tracks(w, r, Apply(w.Cfg(r), s, o), i + 1, n)
  {
    hide StSlotInv, LogValid, Answered, StatesTrue, SharesTrue, XfersTrue, RefAt, SmAfter, Faithful, DropUpTo, Near,
      XferAt, BufferTrue;
    AgreedStateTrue(w, r, s, o, at, i);
    var x := AgreedState(s.stq, o).value;
    InstallSynced(w, r, s.toSm, x, i);
    AskAfterJump(w, r, s.toSm, x, i);
    SmAfterAppend(w, r, s.toSm, InstallState(x));
    DropKeepsStates(w, s.stq, o);
    var a := Apply(w.Cfg(r), s, o);
    NotExecuted(w, i, r);
    assert Synced(w, r, a, i + 1);
    assert Aligned(w, a, i + 1, n);
  }

  lemma NotExecuted(w: World, i: nat, t: nat)
    requires Deployable(w.topo) && i < |w.log| && w.log[i].update == StateTransfer(t)
    ensures RefAt(w, i + 1) == RefAt(w, i) && !ExecutedAt(w, i)
  {
  }

  lemma InstallSynced(w: World, r: nat, msgs: seq<SmMsg>, x: StateXfer, i: nat)
    requires WorldValid(w) && i < |w.log| && XferAt(w, i, x) && x.target == r && Faithful(w, r, msgs)
    ensures Faithful(w, r, msgs + [InstallState(x)])
    ensures Near(w.topo, SmAfter(w, r, msgs + [InstallState(x)]), RefAt(w, i).sm)
  {
    FaithfulAppend(w, r, msgs, InstallState(x), i);
    SmAfterAppend(w, r, msgs, InstallState(x));
    InstallCopies(w.topo, r, RefAt(w, i).sm, SmAfter(w, r, msgs), x);
  }

  // ---- One Prime ordinal -----------------------------------------------------------------------

  lemma SkipPartTracks(w: World, r: nat, s: State, o: Ordinal, u: Update, p: nat, n: nat)
    requires Deployable(w.topo)
    ensures Tracks(w, r, SkipPart(w.Cfg(r), s, o, u), p, n) == Tracks(w, r, s, p, n)
  {
  }

  // Not a transfer for this replica: it is the next entry.
  lemma ForwardTracks(w: World, r: nat, s: State, m: PrimeMsg, p: nat, n: nat)
    requires WorldValid(w) && w.Correct(r) && Tracks(w, r, s, p, n) && !s.collecting
    requires DeliveredAt(w, p, m) && !TransferForMe(w.Cfg(r), m.update)
    ensures Tracks(w, r, ForwardPart(w.Cfg(r), s, m.ord, m.update, Duplicate(w.Cfg(r), s, m.update)), p + 1, n)
  {
    hide Faithful, AlignedTo, StatesTrue, SharesTrue, XfersTrue, Answered, FromLog, SmAfter, Near, BufferTrue;
    var cfg, o, u := w.Cfg(r), m.ord, m.update;
    assert ValidEntry(w, p);
    var s' := ForwardPart(cfg, s, o, u, Duplicate(cfg, s, u));
    if ExecutedAt(w, p) {
      ForwardSynced(w, r, s, p, o, u);
      AskKeepsAlignment(w, s, p, n, Forward(o, u), s');
    } else if u.StateTransfer? && u.machine <= cfg.NumSm() {
      RequestSynced(w, r, s, p, o, u.machine);
      AskKeepsAlignment(w, s, p, n, StateRequest(o, u.machine, s.progress), s');
    } else {
      assert s' == s;
      StaysSynced(w, r, s, p, n);
    }
  }

  // A transfer for this replica that it does not need.
  lemma UnneededTracks(w: World, r: nat, s: State, o: Ordinal, p: nat, n: nat)
    requires WorldValid(w) && Tracks(w, r, s, p, n) && !s.collecting && Sorted(s.stq)
    requires p < |w.log| && w.log[p].update == StateTransfer(r) && Consec(s.recvd, o)
    ensures Tracks(w, r, TransferPart(w.Cfg(r), s, o), p + 1, n)
  {
    DropKeepsStates(w, s.stq, o);
    NotExecuted(w, p, r);
    StaysSynced(w, r, s, p, n);
  }

  // Waiting for the state of entry i.
  lemma WaitingTracks(w: World, r: nat, s: State, q: seq<StSlot>, i: nat, n: nat)
    requires Deployable(w.topo) && i < |w.log| && w.log[i].update == StateTransfer(r)
    requires Faithful(w, r, s.toSm) && Aligned(w, s, i + 1, n) && Inputs(w, s) && Signed(w, s) && StatesTrue(w, q)
    ensures Tracks(w, r, s.(collecting := true, stq := q), i + 1, n)
  {
  }

  // Prime's signal for a transfer across a gap, at entry i.
  lemma SignalTracks(w: World, r: nat, s: State, o: Ordinal, i: nat, p: nat, n: nat)
    requires WorldValid(w) && Tracks(w, r, s, p, n) && Sorted(s.stq)
    requires p <= i < |w.log| && w.log[i].update == StateTransfer(r)
    ensures var q := InsertSt(w.Cfg(r), s.recvd, s.applied, s.stq, SignalState(o), r).0;
            Tracks(w, r, s.(collecting := true, stq := q), i + 1, n)
  {
    hide SyncedAt, StatesTrue, BufferTrue, SharesTrue, XfersTrue, Answered, InsertSt;
    LaterBound(w, s, p, i + 1, n);
    SignalKeepsStates(w, w.Cfg(r), s.recvd, s.applied, s.stq, o);
    WaitingTracks(w, r, s, InsertSt(w.Cfg(r), s.recvd, s.applied, s.stq, SignalState(o), r).0, i, n);
  }

  lemma NeededTracks(w: World, r: nat, s: State, o: Ordinal, i: nat, p: nat, n: nat)
    requires WorldValid(w) && w.Correct(r) && Tracks(w, r, s, p, n)
    requires p <= i < |w.log| && o == w.log[i].ord && w.log[i].update == StateTransfer(r) && !Consec(s.recvd, o)
    requires StInv(w.Cfg(r), s.stq, true, o)
    ensures Tracks(w, r, TransferPart(w.Cfg(r), s, o), i + 1, n)
  {
    var cfg := w.Cfg(r);
    SignalTracks(w, r, s, o, i, p, n);
    SignalResult(cfg, s, o);
    var (q, complete) := InsertSt(cfg, s.recvd, s.applied, s.stq, SignalState(o), r);
    if complete {
      InsertStInv(cfg, s.recvd, s.applied, s.stq, true, o, SignalState(o), r);
      CompletedTracks(w, r, s.(collecting := true, stq := q), o, i, n);
    }
  }

  lemma CompletedTracks(w: World, r: nat, s: State, o: Ordinal, i: nat, n: nat)
    requires WorldValid(w) && w.Correct(r) && Tracks(w, r, s, i + 1, n) && s.collecting
    requires i < |w.log| && o == w.log[i].ord && w.log[i].update == StateTransfer(r)
    requires StInvMid(w.Cfg(r), s.stq, true, o) && Complete(w.Cfg(r), s.stq, o)
    ensures Tracks(w, r, Apply(w.Cfg(r), s, o), i + 1, n)
  {
    ApplySynced(w, r, s, o, o, i, n);
  }

  lemma SignalResult(cfg: Config, s: State, o: Ordinal)
    requires !Consec(s.recvd, o)
    ensures var (q, complete) := InsertSt(cfg, s.recvd, s.applied, s.stq, SignalState(o), cfg.me);
            var s1 := s.(collecting := true, stq := q);
            TransferPart(cfg, s, o) == if complete then Apply(cfg, s1, o) else s1
  {
  }

  // A transfer for this replica at entry i, at or after the next one.
  lemma TransferTracks(w: World, r: nat, s: State, o: Ordinal, i: nat, p: nat, n: nat)
    requires WorldValid(w) && w.Correct(r) && Tracks(w, r, s, p, n) && !s.collecting
    requires s.recvd == OrdAt(w.log, p) && p <= i < |w.log| && o == w.log[i].ord && w.log[i].update == StateTransfer(r)
    requires StInv(w.Cfg(r), s.stq, true, o)
    ensures Tracks(w, r, TransferPart(w.Cfg(r), s, o), i + 1, n)
  {
    hide Synced, AlignedTo, StatesTrue, BufferTrue, SharesTrue, XfersTrue, LogValid, Answered, Prescribed, TransferPart;
    if Consec(s.recvd, o) {
      ConsecIsNext(w, p, i);
      UnneededTracks(w, r, s, o, p, n);
    } else {
      NeededTracks(w, r, s, o, i, p, n);
    }
  }

  lemma SignalKeepsStates(w: World, cfg: Config, recvd: Ordinal, applied: Ordinal, q: seq<StSlot>, o: Ordinal)
    requires Deployable(w.topo) && StatesTrue(w, q) && Sorted(q)
    ensures StatesTrue(w, InsertSt(cfg, recvd, applied, q, SignalState(o), cfg.me).0)
  {
    EnsureSorted(q, o, BLANK_ST);
  }

  lemma ArrivalKeepsStates(w: World, cfg: Config, recvd: Ordinal, applied: Ordinal, q: seq<StSlot>, st: StateXfer,
                           sender: nat)
    requires Deployable(w.topo) && StatesTrue(w, q) && Sorted(q)
    requires sender !in w.byz ==> TrueXfer(w, st)
    ensures StatesTrue(w, InsertSt(cfg, recvd, applied, q, st, sender).0)
  {
    EnsureSorted(q, st.ord, BLANK_ST);
  }

  // ---- Events -------------------------------------------------------------------------------

  // Between events: `recvd` stands at entry p.
  ghost predicate At(w: World, r: nat, s: State, p: nat, n: nat)
    requires Deployable(w.topo)
  {
    Tracks(w, r, s, p, n) && s.recvd == OrdAt(w.log, p) && Inv(w.Cfg(r), s)
  }

  lemma EntryAfter(w: World, p: nat, i: nat)
    requires LogValid(w) && p <= |w.log| && i < |w.log| && Less(OrdAt(w.log, p), w.log[i].ord)
    ensures p <= i
  {
    if i + 1 < p {
      LogIncreases(w, i + 1, p);
    }
  }

  lemma TakeUpTransferTracks(w: World, r: nat, s: State, o: Ordinal, u: Update, i: nat, p: nat, n: nat)
    requires WorldValid(w) && w.Correct(r) && Tracks(w, r, s, p, n) && !s.collecting && s.recvd == OrdAt(w.log, p)
    requires p <= i < |w.log| && o == w.log[i].ord && w.log[i].update == u == StateTransfer(r)
    requires StInv(w.Cfg(r), s.stq, true, o)
    ensures Tracks(w, r, TakeUp(w.Cfg(r), s, o, u), i + 1, n)
  {
    SkipPartTracks(w, r, s, o, u, p, n);
    TransferTracks(w, r, SkipPart(w.Cfg(r), s, o, u), o, i, p, n);
  }

  lemma AdmitTransfer(cfg: Config, s: State, o: Ordinal, u: Update)
    requires TransferForMe(cfg, u) && !TakeUp(cfg, s, o, u).halted
    ensures Admit(cfg, s, o, u) == TakeUp(cfg, s, o, u).(recvd := o)
  {
  }

  lemma AdmitTransferTracks(w: World, r: nat, s: State, o: Ordinal, u: Update, p: nat, n: nat)
    requires Deployable(w.topo) && Tracks(w, r, TakeUp(w.Cfg(r), s, o, u), p, n)
    requires TransferForMe(w.Cfg(r), u) && !TakeUp(w.Cfg(r), s, o, u).halted
    ensures Tracks(w, r, Admit(w.Cfg(r), s, o, u), p, n) && Admit(w.Cfg(r), s, o, u).recvd == o
  {
    AdmitTransfer(w.Cfg(r), s, o, u);
    RecvdKeeps(w, r, TakeUp(w.Cfg(r), s, o, u), o, p, n);
  }

  lemma RecvdKeeps(w: World, r: nat, s: State, o: Ordinal, p: nat, n: nat)
    requires Deployable(w.topo) && Tracks(w, r, s, p, n)
    ensures Tracks(w, r, s.(recvd := o), p, n)
  {
  }

  lemma AdmitNextTracks(w: World, r: nat, s: State, m: PrimeMsg, p: nat, n: nat)
    requires WorldValid(w) && w.Correct(r) && At(w, r, s, p, n) && !s.halted && !s.collecting
    requires DeliveredAt(w, p, m) && !TransferForMe(w.Cfg(r), m.update)
    ensures Tracks(w, r, Admit(w.Cfg(r), s, m.ord, m.update), p + 1, n)
              && Admit(w.Cfg(r), s, m.ord, m.update).recvd == m.ord
  {
    var cfg, o, u := w.Cfg(r), m.ord, m.update;
    SkipPartTracks(w, r, s, o, u, p, n);
    var s1 := SkipPart(cfg, s, o, u);
    RecvdKeeps(w, r, s1, o, p, n);
    ForwardTracks(w, r, s1.(recvd := o), m, p, n);
  }

  lemma TakeUpOwnTracks(w: World, r: nat, s: State, o: Ordinal, u: Update, i: nat, p: nat, n: nat)
    requires WorldValid(w) && w.Correct(r) && At(w, r, s, p, n) && !s.collecting
    requires i < |w.log| && o == w.log[i].ord && w.log[i].update == u == StateTransfer(r) && Less(s.recvd, o)
    ensures Tracks(w, r, TakeUp(w.Cfg(r), s, o, u), i + 1, n)
  {
    EntryAfter(w, p, i);
    AdvanceInv(w.Cfg(r), s, s.recvd, o);
    TakeUpTransferTracks(w, r, s, o, u, i, p, n);
  }

  lemma AdmitOwnTracks(w: World, r: nat, s: State, o: Ordinal, u: Update, i: nat, p: nat, n: nat)
    requires WorldValid(w) && w.Correct(r) && At(w, r, s, p, n) && !s.halted && !s.collecting
    requires i < |w.log| && o == w.log[i].ord && w.log[i].update == u == StateTransfer(r) && Less(s.recvd, o)
    ensures Tracks(w, r, Admit(w.Cfg(r), s, o, u), i + 1, n) && Admit(w.Cfg(r), s, o, u).recvd == o
  {
    hide Tracks, TakeUp, Admit, Inv, Deployable, LogValid, Answered;
    TakeUpOwnTracks(w, r, s, o, u, i, p, n);
    TakeUpInv(w.Cfg(r), s, o, u);
    AdmitTransferTracks(w, r, s, o, u, i + 1, n);
  }

  lemma ProcessPrimeTracks(w: World, r: nat, s: State, m: PrimeMsg, p: nat, n: nat) returns (p': nat)
    requires WorldValid(w) && w.Correct(r) && At(w, r, s, p, n) && !s.halted
    requires FromLog(w, m) && Less(s.recvd, m.ord)
    ensures p' <= |w.log| && At(w, r, ProcessPrime(w.Cfg(r), s, m), p', n)
  {
    hide Faithful, SyncedAt, AlignedTo, StatesTrue, SharesTrue, XfersTrue, Admit, Inv, Deployable, LogValid, Answered;
    ProcessPrimeInv(w.Cfg(r), s, m);
    p' := p;
    if s.collecting {
    } else if Admissible(w.Cfg(r), s, m.ord, m.update) {
      var i: nat :| DeliveredAt(w, i, m);
      p' := i + 1;
      if TransferForMe(w.Cfg(r), m.update) {
        AdmitOwnTracks(w, r, s, m.ord, m.update, i, p, n);
      } else {
        ConsecIsNext(w, p, i);
        AdmitNextTracks(w, r, s, m, p, n);
      }
    }
  }

  lemma {:induction false} ReplayTracks(w: World, r: nat, s: State, p: nat, n: nat) returns (p': nat)
    requires WorldValid(w) && w.Correct(r) && At(w, r, s, p, n) && !s.halted
    ensures p' <= |w.log| && At(w, r, Replay(w.Cfg(r), s), p', n)
    decreases |s.pending|
  {
    p' := p;
    if s.pending != [] && !s.collecting {
      var cfg, m := w.Cfg(r), s.pending[0];
      var s1 := s;
      if Less(s.recvd, m.ord) {
        p' := ProcessPrimeTracks(w, r, s, m, p, n);
        ProcessPrimeInv(cfg, s, m);
        s1 := ProcessPrime(cfg, s, m);
      }
      ShorterBuffer(w, r, s1, p', n);
      p' := ReplayTracks(w, r, s1.(pending := s1.pending[1..]), p', n);
    }
  }

  lemma ShorterBuffer(w: World, r: nat, s: State, p: nat, n: nat)
    requires Deployable(w.topo) && At(w, r, s, p, n) && s.pending != []
    ensures At(w, r, s.(pending := s.pending[1..]), p, n)
  {
  }

  lemma CompletedKeeps(w: World, r: nat, s: State, p: nat, n: nat)
    requires Deployable(w.topo) && At(w, r, s, p, n)
    ensures At(w, r, s.(completed := false), p, n)
  {
  }

  lemma HaltedKeeps(w: World, r: nat, s: State, p: nat, n: nat)
    requires Deployable(w.topo) && At(w, r, s, p, n)
    ensures At(w, r, s.(halted := true), p, n)
  {
  }

  lemma NoteFirstKeeps(w: World, r: nat, s: State, o: Ordinal, p: nat, n: nat)
    requires Deployable(w.topo) && At(w, r, s, p, n)
    ensures At(w, r, NoteFirst(s, o), p, n)
  {
  }

  lemma CreditKeeps(w: World, r: nat, s: State, c: nat, p: nat, n: nat)
    requires Deployable(w.topo) && At(w, r, s, p, n)
    ensures At(w, r, s.(credit := c), p, n)
  {
  }

  lemma FinishTracks(w: World, r: nat, s: State, p: nat, n: nat) returns (p': nat)
    requires WorldValid(w) && w.Correct(r) && At(w, r, s, p, n)
    ensures p' <= |w.log| && At(w, r, Finish(w.Cfg(r), s), p', n)
  {
    p' := p;
    HaltedKeeps(w, r, s, p, n);
    CompletedKeeps(w, r, s, p, n);
    if !s.halted && s.completed && !s.collecting {
      p' := ReplayTracks(w, r, s.(completed := false), p, n);
    }
  }

  lemma OnPrimeTracks(w: World, r: nat, s: State, m: PrimeMsg, p: nat, n: nat) returns (p': nat)
    requires WorldValid(w) && w.Correct(r) && At(w, r, s, p, n) && !s.halted && FromLog(w, m)
    ensures p' <= |w.log| && At(w, r, OnPrime(w.Cfg(r), s, m), p', n)
  {
    hide Faithful, SyncedAt, AlignedTo, Inputs, Signed, Finish, ProcessPrime, Inv, Answered;
    var i: nat :| DeliveredAt(w, i, m);
    assert ValidEntry(w, i);
    NoteFirstKeeps(w, r, s, m.ord, p, n);
    var s1 := NoteFirst(s, m.ord);
    p' := p;
    if Less(s1.recvd, m.ord) {
      p' := ProcessPrimeTracks(w, r, s1, m, p, n);
      p' := FinishTracks(w, r, ProcessPrime(w.Cfg(r), s1, m), p', n);
    }
  }

  lemma InsertTracks(w: World, r: nat, s: State, sh: ShareMsg, sender: nat, p: nat, n: nat)
    requires Deployable(w.topo)
    ensures Tracks(w, r, InsertAndDrain(w.Cfg(r), s, sh, sender, false), p, n) == Tracks(w, r, s, p, n)
  {
  }

  // The master's next answer is the n-th, and so is the ordinal it is paired with.
  lemma OnMasterTracks(w: World, r: nat, s: State, reply: SmReply, p: nat, n: nat)
    requires WorldValid(w) && w.Correct(r) && At(w, r, s, p, n) && !s.halted && n < |Tags(s.toSm)|
    requires TrueReply(w, Tags(s.toSm)[n], reply)
    ensures At(w, r, OnMaster(w.Cfg(r), s, reply), p, n + 1)
  {
    hide Faithful, SyncedAt, StatesTrue, BufferTrue, SharesTrue, XfersTrue, LogValid, Answered, InsertAndDrain, Inv,
      AllowedPayload, TrueXfer;
    var cfg := w.Cfg(r);
    OnMasterInv(cfg, s, reply);
    var o := s.ordq[0];
    assert o == Tags(s.toSm)[n];
    var s1 := s.(ordq := s.ordq[1..]);
    assert Tracks(w, r, s1, p, n + 1);
    match reply
    case PackedState(t, latest, c, bytes) =>
      var x := StateXfer(o, t, latest, c, bytes);
      SignedState(w, r, s1, x, p, n + 1);
    case Scada(pay) =>
      var sh := ShareMsg(o, pay, Genuine(cfg.me, o, pay));
      SignedShare(w, r, s1, sh, p, n + 1);
      InsertTracks(w, r, s1.(shares := s1.shares + [sh]), sh, cfg.me, p, n + 1);
  }

  lemma SignedState(w: World, r: nat, s: State, x: StateXfer, p: nat, n: nat)
    requires Deployable(w.topo) && Tracks(w, r, s, p, n) && TrueXfer(w, x)
    ensures Tracks(w, r, s.(states := s.states + [x]), p, n)
  {
  }

  lemma SignedShare(w: World, r: nat, s: State, sh: ShareMsg, p: nat, n: nat)
    requires Deployable(w.topo) && Tracks(w, r, s, p, n) && AllowedPayload(w, sh.ord, sh.payload)
    ensures Tracks(w, r, s.(shares := s.shares + [sh]), p, n)
  {
  }

  lemma OnShareTracks(w: World, r: nat, s: State, sender: nat, sh: ShareMsg, p: nat, n: nat)
    requires WorldValid(w) && w.Correct(r) && At(w, r, s, p, n) && w.IsReplica(sender) && sender != r
    ensures At(w, r, OnShare(w.Cfg(r), s, sender, sh), p, n)
  {
    InsertTracks(w, r, s, sh, sender, p, n);
    if r in w.cc {
      InsertInv(w.Cfg(r), s, s.recvd, sh, sender, false);
    }
  }

  lemma NewSlotsTrack(w: World, r: nat, s: State, q: seq<StSlot>, p: nat, n: nat)
    requires Deployable(w.topo) && Tracks(w, r, s, p, n) && StatesTrue(w, q)
    ensures Tracks(w, r, s.(stq := q), p, n)
  {
  }

  lemma NewSlotsInv(cfg: Config, s: State, q: seq<StSlot>)
    requires Inv(cfg, s) && StInv(cfg, q, s.collecting, s.recvd)
    ensures Inv(cfg, s.(stq := q))
  {
  }

  // A state that completes the transfer the replica waits for.
  lemma CompletingTracks(w: World, r: nat, s: State, q: seq<StSlot>, o: Ordinal, p: nat, n: nat) returns (p': nat)
    requires WorldValid(w) && w.Correct(r) && At(w, r, s, p, n) && !s.halted && s.collecting
    requires StInvMid(w.Cfg(r), q, true, s.recvd) && Complete(w.Cfg(r), q, o) && Same(o, s.recvd) && Less(s.applied, o)
    requires StatesTrue(w, q)
    ensures p' <= |w.log| && At(w, r, Finish(w.Cfg(r), Apply(w.Cfg(r), s.(stq := q), o)), p', n)
  {
    hide DropUpTo, LogValid, Answered, StatesTrue, Complete, StInvMid, AlignedTo, Finish, Apply;
    var cfg := w.Cfg(r);
    var s1 := s.(stq := q);
    NewSlotsTrack(w, r, s, q, p, n);
    ApplySynced(w, r, s1, o, s.recvd, p - 1, n);
    ApplyInv(cfg, s1, o, s.recvd);
    p' := FinishTracks(w, r, Apply(cfg, s1, o), p, n);
  }

  lemma OnStateTracks(w: World, r: nat, s: State, sender: nat, st: StateXfer, p: nat, n: nat) returns (p': nat)
    requires WorldValid(w) && w.Correct(r) && At(w, r, s, p, n) && !s.halted && w.IsReplica(sender) && sender != r
    requires sender !in w.byz ==> TrueXfer(w, st)
    ensures p' <= |w.log| && At(w, r, OnState(w.Cfg(r), s, sender, st), p', n)
  {
    var cfg := w.Cfg(r);
    InsertStInv(cfg, s.recvd, s.applied, s.stq, s.collecting, s.recvd, st, sender);
    ArrivalKeepsStates(w, cfg, s.recvd, s.applied, s.stq, st, sender);
    var (q, complete) := InsertSt(cfg, s.recvd, s.applied, s.stq, st, sender);
    if complete {
      p' := CompletingTracks(w, r, s, q, st.ord, p, n);
    } else {
      NewSlotsTrack(w, r, s, q, p, n);
      NewSlotsInv(cfg, s, q);
      p' := FinishTracks(w, r, s.(stq := q), p, n);
    }
  }
}
