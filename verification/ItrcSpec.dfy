/** The channel's replica side as a state machine on values: what each event of
    ITRC_Master does to the replica's globals. */
module ItrcSpec {
  import opened Ordinals
  import opened Packets
  import opened Slots

  // ---- The two queues' slots ----------------------------------------------

  // A TC slot collects signature shares for one ordinal; `recvd` holds the
  // senders whose flag is set.
  datatype TcBody = TcBody(done: bool, skip: bool, count: nat, recvd: set<nat>,
                           shares: map<nat, ShareMsg>, tcf: Option<TcFinal>)

  // An ST slot collects states for one ordinal; `result` is the sender whose
  // stored state was agreed on.
  datatype StBody = StBody(collected: bool, signaled: bool, count: nat,
                           states: map<nat, StateXfer>, result: Option<nat>)

  type TcSlot = Slot<TcBody>
  type StSlot = Slot<StBody>

  const BLANK_TC := TcBody(false, false, 0, {}, map[], None)
  const BLANK_ST := StBody(false, false, 0, map[], None)

  // How an ordinal came to be behind the replica.
  datatype Consumed = Delivered(ord: Ordinal) | Skipped(ord: Ordinal) | Jumped(ord: Ordinal)

  // The globals of a replica, and what it has put out since the last reset:
  // messages to its SCADA master, finals to clients, signed shares and signed
  // states to peers, and requests to the inject thread.  `credit` is how many
  // more finals the external link will take before it fails.
  datatype State = State(
    tcq: seq<TcSlot>, stq: seq<StSlot>,
    applied: Ordinal, recvd: Ordinal,
    ordq: seq<Ordinal>, pending: seq<PrimeMsg>,
    collecting: bool, completed: bool,
    progress: Progress,
    firstSeen: bool, halted: bool, credit: nat,
    toSm: seq<SmMsg>, finals: seq<TcFinal>, lost: seq<TcFinal>,
    shares: seq<ShareMsg>, states: seq<StateXfer>,
    consumed: seq<Consumed>, injected: nat)

  function Initial(): State {
    State([], [], ZERO, ZERO, [], [], false, false,
          NoProgress(),
          false, false, 0, [], [], [], [], [], [], 0)
  }

  // ---- Threshold signatures -------------------------------------------------

  // The indices, in ascending order up to n, that hold a share for exactly this ordinal.
  function Matching(b: TcBody, o: Ordinal, n: nat): seq<nat> {
    if n == 0 then []
    else Matching(b, o, n - 1) +
         (if n in b.recvd && n in b.shares && b.shares[n].ord == o then [n] else [])
  }

  // The signature combined from the shares at these indices.
  function Combine(b: TcBody, idxs: seq<nat>): ThreshSig
    requires forall j | 0 <= j < |idxs| :: idxs[j] in b.shares
  {
    map i | i in idxs :: b.shares[i].sig
  }

  lemma MatchingStored(b: TcBody, o: Ordinal, n: nat)
    ensures forall j | 0 <= j < |Matching(b, o, n)| ::
              var i := Matching(b, o, n)[j];
              1 <= i <= n && i in b.recvd && i in b.shares && b.shares[i].ord == o
  {
  }

  function ConstructFinal(cfg: Config, o: Ordinal, b: TcBody): Option<TcFinal> {
    if b.count < cfg.ReqShares() then None
    else
      var idxs := Matching(b, o, cfg.NumSm());
      if |idxs| < cfg.ReqShares() then None
      else
        MatchingStored(b, o, cfg.NumSm());
        var fin := TcFinal(o, b.shares[idxs[0]].payload, Combine(b, idxs));
        if VerifyThresh(cfg.f, fin) then Some(fin) else None
  }

  // ---- TC queue ---------------------------------------------------------------

  // What a share (or, when `skip`, an empty slot) from `sender` does to its slot.
  function RecordShare(cfg: Config, b: TcBody, sh: ShareMsg, sender: nat, skip: bool): TcBody {
    if b.done || sender in b.recvd then b
    else
      var b1 := b.(recvd := b.recvd + {sender}, count := b.count + 1);
      if skip then b1.(done := true, skip := true)
      else
        var b2 := b1.(shares := b1.shares[sender := sh]);
        if b2.count >= cfg.ReqShares() && cfg.me in b2.recvd then
          var fin := ConstructFinal(cfg, sh.ord, b2);
          b2.(tcf := fin, skip := fin.None?, done := true)
        else b2
  }

  function InsertTc(cfg: Config, applied: Ordinal, q: seq<TcSlot>, sh: ShareMsg, sender: nat, skip: bool): seq<TcSlot> {
    if !Less(applied, sh.ord) then q
    else
      var q1 := Ensure(q, sh.ord, BLANK_TC);
      var k := Position(q, sh.ord);
      SetBody(q1, k, RecordShare(cfg, q1[k].body, sh, sender, skip))
  }

  // Can the front slot be consumed?
  predicate FrontReady(cfg: Config, applied: Ordinal, q: seq<TcSlot>) {
    |q| > 0 && q[0].body.done && cfg.me in q[0].body.recvd && Consec(applied, q[0].ord)
  }

  // What one call of ITRC_TC_Ready_Deliver hands out and leaves behind.
  datatype Ready = Ready(out: Option<TcFinal>, ready: bool, applied: Ordinal, rest: seq<TcSlot>,
                         consumed: seq<Consumed>)

  function ReadyDeliver(cfg: Config, applied: Ordinal, q: seq<TcSlot>): (r: Ready)
    ensures r.ready ==> |r.rest| < |q|
    ensures |r.rest| <= |q|
    decreases |q|
  {
    if !FrontReady(cfg, applied, q) then Ready(None, false, applied, q, [])
    else if !q[0].body.skip then Ready(q[0].body.tcf, true, q[0].ord, q[1..], [Delivered(q[0].ord)])
    else
      var r := ReadyDeliver(cfg, q[0].ord, q[1..]);
      r.(consumed := [Skipped(q[0].ord)] + r.consumed)
  }

  // A final handed to the external link: sent while there is credit, else lost.
  function SendFinal(s: State, out: Option<TcFinal>): State {
    match out
    case None => s
    case Some(fin) =>
      if s.credit == 0 then s.(lost := s.lost + [fin])
      else s.(credit := s.credit - 1, finals := s.finals + [fin])
  }

  // The delivery loop: hand out finals until nothing is ready or the link fails.
  function Drain(cfg: Config, s: State): (r: State)
    ensures r == s.(tcq := r.tcq, applied := r.applied, consumed := r.consumed,
                    credit := r.credit, finals := r.finals, lost := r.lost)
    decreases |s.tcq|
  {
    var r := ReadyDeliver(cfg, s.applied, s.tcq);
    var s1 := s.(applied := r.applied, tcq := r.rest, consumed := s.consumed + r.consumed);
    if !r.ready then s1
    else if s.credit == 0 then SendFinal(s1, r.out)
    else Drain(cfg, SendFinal(s1, r.out))
  }

  function InsertAndDrain(cfg: Config, s: State, sh: ShareMsg, sender: nat, skip: bool): (r: State)
    ensures r == s.(tcq := r.tcq, applied := r.applied, consumed := r.consumed,
                    credit := r.credit, finals := r.finals, lost := r.lost)
  {
    Drain(cfg, s.(tcq := InsertTc(cfg, s.applied, s.tcq, sh, sender, skip)))
  }

  // ---- State transfer ---------------------------------------------------------

  // The senders that reported exactly this state.
  function Reporting(states: map<nat, StateXfer>, st: StateXfer): set<nat> {
    set i | i in states && states[i] == st
  }

  // What a state from `sender` (the replica itself: Prime's signal) does to its slot.
  function RecordState(cfg: Config, b: StBody, st: StateXfer, sender: nat): StBody {
    if sender == cfg.me then b.(signaled := true)
    else if sender in b.states then b
    else
      var b1 := b.(count := b.count + 1, states := b.states[sender := st]);
      if !b1.collected && b1.count >= cfg.ReqShares() && |Reporting(b1.states, st)| >= cfg.ReqShares()
      then b1.(collected := true, result := Some(sender))
      else b1
  }

  // A repeated state returns before the completion test.
  predicate Completes(cfg: Config, before: StBody, after: StBody, sender: nat) {
    (sender == cfg.me || sender !in before.states) && after.collected && after.signaled
  }

  predicate OldState(recvd: Ordinal, applied: Ordinal, o: Ordinal) {
    Less(o, recvd) || !Less(applied, o)
  }

  // The queue after a state (or signal) arrived, and whether that completed a transfer.
  function InsertSt(cfg: Config, recvd: Ordinal, applied: Ordinal, q: seq<StSlot>, st: StateXfer,
                    sender: nat): (seq<StSlot>, bool) {
    if OldState(recvd, applied, st.ord) then (q, false)
    else
      var q1, k := Ensure(q, st.ord, BLANK_ST), Position(q, st.ord);
      var b := RecordState(cfg, q1[k].body, st, sender);
      (SetBody(q1, k, b), Completes(cfg, q1[k].body, b, sender))
  }

  // The agreed state stored in the slot for `o`, if there is one.
  function AgreedState(q: seq<StSlot>, o: Ordinal): Option<StateXfer> {
    if !Has(q, o) then None
    else
      var b := q[Position(q, o)].body;
      if b.result.Some? && b.result.value in b.states then Some(b.states[b.result.value]) else None
  }

  // ITRC_Apply_State_Transfer; without an agreed state its assertion stops the replica.
  function Apply(cfg: Config, s: State, o: Ordinal): (r: State)
    ensures r.pending == s.pending && (s.completed ==> r.completed)
  {
    var agreed := AgreedState(s.stq, o);
    if agreed.None? then s.(halted := true)
    else
      var st := agreed.value;
      s.(stq := DropUpTo(s.stq, o), tcq := DropUpTo(s.tcq, o),
         progress := st.latest, toSm := s.toSm + [InstallState(st)],
         applied := o, collecting := false, completed := true,
         consumed := s.consumed + [Jumped(o)])
  }

  function SignalState(o: Ordinal): StateXfer {
    StateXfer(o, 0, NoProgress(), 0, [])
  }

  // ---- Processing one Prime ordinal ----------------------------------------------

  predicate TransferForMe(cfg: Config, u: Update) {
    u.StateTransfer? && u.machine == cfg.me
  }

  predicate Duplicate(cfg: Config, s: State, u: Update)
  {
    ValidFromPrime(cfg, u) && u.FromClient() && PairCompare(u.seqp, s.progress[u.Client()]) <= 0
  }

  // Ordinals that carry nothing to sign get an empty slot.
  predicate EmptySlot(cfg: Config, s: State, u: Update)
  {
    !ValidFromPrime(cfg, u) || u.NoOp? || u.StateTransfer? || u.SystemReset? || Duplicate(cfg, s, u)
  }

  function SkipPart(cfg: Config, s: State, o: Ordinal, u: Update): (r: State)
    ensures r == s.(tcq := r.tcq, applied := r.applied, consumed := r.consumed,
                    credit := r.credit, finals := r.finals, lost := r.lost)
  {
    if EmptySlot(cfg, s, u) && cfg.cc
    then InsertAndDrain(cfg, s, ShareMsg(o, NoPayload, Junk), cfg.me, true)
    else s
  }

  function TransferPart(cfg: Config, s: State, o: Ordinal): (r: State)
    ensures r.pending == s.pending && (s.completed ==> r.completed)
  {
    if !Consec(s.recvd, o) then
      var s1 := s.(collecting := true);
      var (q, complete) := InsertSt(cfg, s.recvd, s.applied, s.stq, SignalState(o), cfg.me);
      var s2 := s1.(stq := q);
      if complete then Apply(cfg, s2, o) else s2
    else
      s.(stq := DropUpTo(s.stq, o), applied := if cfg.cc then s.applied else o)
  }

  function ForwardPart(cfg: Config, s: State, o: Ordinal, u: Update, dup: bool): (r: State)
    ensures r == s.(ordq := r.ordq, progress := r.progress, toSm := r.toSm)
  {
    if !ValidFromPrime(cfg, u) || u.NoOp? || u.SystemReset? || TransferForMe(cfg, u) || dup then s
    else if u.FromClient() then
      s.(ordq := s.ordq + [o], progress := s.progress[u.Client() := u.seqp],
         toSm := s.toSm + [Forward(o, u)])
    else if u.StateTransfer? then
      s.(ordq := s.ordq + [o], toSm := s.toSm + [StateRequest(o, u.machine, s.progress)])
    else s
  }

  // An ordinal that is next in line (or a transfer for this replica), up to the
  // point where `recvd` moves.
  function TakeUp(cfg: Config, s: State, o: Ordinal, u: Update): (r: State)
    ensures r.pending == s.pending && (s.completed ==> r.completed)
  {
    var s1 := SkipPart(cfg, s, o, u);
    if TransferForMe(cfg, u) then TransferPart(cfg, s1, o) else s1
  }

  function Admit(cfg: Config, s: State, o: Ordinal, u: Update): (r: State)
    ensures r.pending == s.pending && (s.completed ==> r.completed)
  {
    var s2 := TakeUp(cfg, s, o, u);
    if s2.halted then s2
    else ForwardPart(cfg, s2.(recvd := o), o, u, Duplicate(cfg, s, u))
  }

  predicate Admissible(cfg: Config, s: State, o: Ordinal, u: Update) {
    Consec(s.recvd, o) || TransferForMe(cfg, u)
  }

  function ProcessPrime(cfg: Config, s: State, m: PrimeMsg): (r: State)
    ensures !s.collecting ==> r.pending == s.pending
    ensures s.completed ==> r.completed
  {
    if s.collecting then s.(pending := s.pending + [m])
    else if !Admissible(cfg, s, m.ord, m.update) then s
    else Admit(cfg, s, m.ord, m.update)
  }

  // ---- Events ---------------------------------------------------------------------

  // Replays buffered Prime messages in order until none is left or a new
  // collection starts.
  function Replay(cfg: Config, s: State): State
    decreases |s.pending|
  {
    if s.pending == [] || s.collecting || s.halted then s
    else
      var m := s.pending[0];
      var s1 := if Less(s.recvd, m.ord) then ProcessPrime(cfg, s, m) else s;
      Replay(cfg, s1.(pending := s1.pending[1..]))
  }

  // After an event that completed a transfer, catch up on what was buffered.
  // The source asserts here that no collection is under way.
  function Finish(cfg: Config, s: State): State {
    if s.halted || !s.completed then s
    else if s.collecting then s.(halted := true)
    else Replay(cfg, s.(completed := false))
  }

  // ITRC_Reset_Master_Data_Structures: `progress` and the first-ordinal flag survive.
  function Reset(s: State): State {
    Initial().(progress := s.progress, firstSeen := s.firstSeen, credit := s.credit, toSm := [ResetMaster])
  }

  // The very first ordinal asks for a state transfer when it is not the expected one.
  function NoteFirst(s: State, o: Ordinal): (r: State)
    ensures r == s.(firstSeen := true, injected := r.injected)
  {
    s.(firstSeen := true,
       injected := if !s.firstSeen && !Consec(s.recvd, o) then s.injected + 1 else s.injected)
  }

  function OnPrime(cfg: Config, s: State, m: PrimeMsg): State {
    if m.update.SystemReset? then
      if m.ord.num != 0 then s.(halted := true) else Reset(s)
    else
      var s1 := NoteFirst(s, m.ord);
      if !Less(s1.recvd, m.ord) then s1
      else Finish(cfg, ProcessPrime(cfg, s1, m))
  }

  // The SCADA master's next answer belongs to the ordinal at the front of the
  // ordinal queue; an answer nobody asked for stops the replica.
  function OnMaster(cfg: Config, s: State, reply: SmReply): State {
    if s.ordq == [] then s.(halted := true)
    else
      var o := s.ordq[0];
      var s1 := s.(ordq := s.ordq[1..]);
      match reply
      case PackedState(target, latest, n, bytes) =>
        s1.(states := s1.states + [StateXfer(o, target, latest, n, bytes)])
      case Scada(p) =>
        var sh := ShareMsg(o, p, Genuine(cfg.me, o, p));
        var s2 := s1.(shares := s1.shares + [sh]);
        if cfg.cc then InsertAndDrain(cfg, s2, sh, cfg.me, false) else s2
  }

  function OnShare(cfg: Config, s: State, sender: nat, sh: ShareMsg): State {
    if cfg.cc then InsertAndDrain(cfg, s, sh, sender, false) else s
  }

  function OnState(cfg: Config, s: State, sender: nat, st: StateXfer): State {
    var (q, complete) := InsertSt(cfg, s.recvd, s.applied, s.stq, st, sender);
    var s1 := s.(stq := q);
    Finish(cfg, if complete then Apply(cfg, s1, st.ord) else s1)
  }

  datatype Event =
    | PrimeDelivery(m: PrimeMsg)
    | MasterReply(reply: SmReply)
    | ShareArrival(sender: nat, share: ShareMsg)
    | StateArrival(sender: nat, xfer: StateXfer)
    | LinkCredit(n: nat)

  function Step(cfg: Config, s: State, e: Event): State {
    if s.halted then s
    else
      match e
      case PrimeDelivery(m) => OnPrime(cfg, s, m)
      case MasterReply(r) => OnMaster(cfg, s, r)
      case ShareArrival(sender, sh) => OnShare(cfg, s, sender, sh)
      case StateArrival(sender, st) => OnState(cfg, s, sender, st)
      case LinkCredit(n) => s.(credit := n)
  }

  function Run(cfg: Config, es: seq<Event>): State {
    if es == [] then Initial()
    else Step(cfg, Run(cfg, es[..|es| - 1]), es[|es| - 1])
  }
}
