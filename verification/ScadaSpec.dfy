/** The SCADA master as a state machine on values: what each message from the
    channel does to its state, and what it answers. */
module ScadaSpec {
  import opened Ordinals
  import opened Packets
  import opened Grid
  import opened StateCodec

  const EMS_WORD := 0x1_0000_0000
  const PNNL_WRITE_OFFSET := PNNL_DATA_PADDING + 32 + NUM_BREAKER

  // Header sizes on the wire, and the largest message.
  const SIGNED_HEADER := 156
  const XFER_HEADER := 24 + 8 * NUM_CLIENTS
  const MAX_LEN := 10000

  // Switch, transformer and operator-visible statuses, and the PNNL and EMS data.
  datatype Sm = Sm(sw: seq<byte>, tx: seq<byte>, stat: seq<byte>, pnnl: PnnlFields, ems: seq<EmsFields>)

  // A topology this master can pack into one message.
  predicate Deployable(topo: Topology) {
    topo.Valid() && SIGNED_HEADER + XFER_HEADER + 19 * |topo.subs| + 68 <= MAX_LEN
  }

  predicate SmValid(topo: Topology, sm: Sm) {
    topo.Valid() && topo.Fits(sm.sw, sm.tx) && topo.Untouched(sm.stat) && |sm.ems| == EMS_NUM_GENERATORS
  }

  function InitialSm(topo: Topology): (sm: Sm)
    requires topo.Valid()
    ensures SmValid(topo, sm)
  {
    var zeros: PnnlFields := seq(RTU_DATA_PAYLOAD_LEN, _ => 0);
    var blank: EmsFields := seq(EMS_WORDS, _ => 0);
    Sm(Ones(|topo.swIds|), Ones(|topo.subs|), Ones(topo.statLen), zeros, seq(EMS_NUM_GENERATORS, _ => blank))
  }

  // process(): recompute what operators see.
  ghost function Process(topo: Topology, sm: Sm): (r: Sm)
    requires SmValid(topo, sm)
    ensures SmValid(topo, r) && r.stat == topo.StatOf(sm.sw, sm.tx)
    ensures r == sm.(stat := r.stat)
  {
    StatForgetsPast(topo, sm.stat, sm.sw, sm.tx);
    sm.(stat := topo.StatFrom(sm.stat, sm.sw, sm.tx))
  }

  // Only the values 0, 1 and 2 are taken over.
  function MergeSwitches(sw: seq<byte>, list: seq<nat>, words: seq<int>): (r: seq<byte>)
    requires |list| <= |words| && forall a | 0 <= a < |list| :: list[a] < |sw|
    ensures |r| == |sw|
    decreases |list|
  {
    if list == [] then sw
    else
      var n := |list| - 1;
      var s := MergeSwitches(sw, list[..n], words);
      if 0 <= words[n] <= 2 then s[list[n] := words[n]] else s
  }

  ghost function ReadJhu(topo: Topology, sm: Sm, id: nat, txWord: int, words: SwitchWords): (r: Sm)
    requires SmValid(topo, sm)
    ensures SmValid(topo, r)
  {
    if id >= |topo.subs| then sm
    else
      assert topo.ValidSub(id);
      var sw := MergeSwitches(sm.sw, topo.subs[id].switches, words);
      var tx := if 0 <= txWord <= 1 then sm.tx[id := txWord] else sm.tx;
      Process(topo, sm.(sw := sw, tx := tx))
  }

  // read_from_rtu and the HMI update sent afterwards.
  ghost function OnRtu(topo: Topology, sm: Sm, sp: SeqPair, id: nat, sec: nat, usec: nat,
                       body: RtuBody): (r: (Sm, Option<Payload>))
    requires SmValid(topo, sm)
    ensures SmValid(topo, r.0)
  {
    match body
    case Jhu(txWord, words) =>
      var sm1 := ReadJhu(topo, sm, id, txWord, words);
      (sm1, Some(HmiUpdate(sp, JHU, sec, usec, Bytes(sm1.stat))))
    case Pnnl(fields) =>
      (sm.(pnnl := fields), Some(HmiUpdate(sp, PNNL, sec, usec, Bytes(fields[PNNL_DATA_PADDING..]))))
    case Ems(words) =>
      if words[0] >= EMS_NUM_GENERATORS then (sm, None)
      else (sm.(ems := sm.ems[words[0] := words]), Some(HmiUpdate(sp, EMS, sec, usec, Words(words))))
    case UnknownScenario(_) => (sm, None)
  }

  // The first substation whose transformer has this identifier.
  function FindTx(topo: Topology, pos: int, from: nat): Option<nat>
    decreases |topo.txIds| - from
  {
    if from >= |topo.txIds| then None
    else if topo.txIds[from] == pos then Some(from)
    else FindTx(topo, pos, from + 1)
  }

  // The first (substation, place in its list) whose switch has this identifier.
  function FindInList(topo: Topology, list: seq<nat>, pos: int, from: nat): (r: Option<nat>)
    requires forall a | 0 <= a < |list| :: list[a] < |topo.swIds|
    ensures r.Some? ==> r.value < |list|
    decreases |list| - from
  {
    if from >= |list| then None
    else if topo.swIds[list[from]] == pos then Some(from)
    else FindInList(topo, list, pos, from + 1)
  }

  function FindSwitch(topo: Topology, pos: int, from: nat): (r: Option<(nat, nat)>)
    requires topo.Valid()
    ensures r.Some? ==> r.value.0 < |topo.subs| && r.value.1 < |topo.subs[r.value.0].switches|
    decreases |topo.subs| - from
  {
    if from >= |topo.subs| then None
    else
      assert topo.ValidSub(from);
      var z := FindInList(topo, topo.subs[from].switches, pos, 0);
      if z.Some? then Some((from, z.value)) else FindSwitch(topo, pos, from + 1)
  }

  function Flip(status: byte): int {
    if status == 0 then 1 else 0
  }

  function ToSigned(n: nat): int {
    if n < EMS_WORD / 2 then n else n - EMS_WORD
  }

  // read_from_hmi; None: nothing is sent (or the source's assertion or array
  // bound is violated).
  function OnHmi(topo: Topology, sm: Sm, sp: SeqPair, scen: nat, kind: int, pos: int): (r: (Sm, Option<Payload>))
    requires SmValid(topo, sm)
    ensures SmValid(topo, r.0)
  {
    if scen == JHU then
      if kind == TRANSFORMER then
        var i := FindTx(topo, pos, 0);
        (sm, if i.Some? && i.value < |sm.tx|
             then Some(RtuFeedback(sp, scen, TRANSFORMER, i.value, i.value, 0, Flip(sm.tx[i.value]))) else None)
      else if kind == SWITCH then
        var f := FindSwitch(topo, pos, 0);
        if f.None? then (sm, None)
        else
          var (i, z) := f.value;
          assert topo.ValidSub(i);
          var status := sm.sw[topo.subs[i].switches[z]];
          (sm, if status == 2 then None else Some(RtuFeedback(sp, scen, SWITCH, i, i, z, Flip(status))))
      else (sm, None)
    else if scen == PNNL then
      if !(0 <= pos < NUM_BREAKER) then (sm, None)
      else
        var val := if kind == BREAKER_FLIP then Flip(sm.pnnl[PNNL_WRITE_OFFSET + pos])
                   else if kind == BREAKER_ON then 1 else 0;
        (sm, Some(RtuFeedback(sp, scen, BREAKER, PNNL_RTU_ID, PNNL_RTU_ID, pos, val)))
    else if scen == EMS then
      if !(0 <= pos < EMS_NUM_GENERATORS) then (sm, None)
      else
        var words: EmsFields := sm.ems[pos][EMS_TARGET_WORD := kind % EMS_WORD];
        (sm.(ems := sm.ems[pos := words]),
         Some(RtuFeedback(sp, scen, EMS_TARGET_SET, EMS_RTU_ID_BASE + pos, EMS_RTU_ID_BASE + pos, 0,
                          ToSigned(words[EMS_TARGET_WORD]))))
    else (sm, None)
  }

  ghost function OnUpdate(topo: Topology, sm: Sm, u: Update): (r: (Sm, Option<Payload>))
    requires SmValid(topo, sm)
    ensures SmValid(topo, r.0)
  {
    match u
    case RtuData(sp, id, sec, usec, body) => OnRtu(topo, sm, sp, id, sec, usec, body)
    case HmiCommand(sp, _, scen, kind, pos) => OnHmi(topo, sm, sp, scen, kind, pos)
    case Benchmark(sp, sender, ps, pu, _, _) => (sm, Some(BenchmarkReply(sp, sender, ps, pu, 0, 0)))
    case _ => (sm, None)
  }

  function PackedReply(topo: Topology, sm: Sm, target: nat, latest: Progress): SmReply
    requires SmValid(topo, sm) && Deployable(topo)
  {
    PackedState(target, latest, |topo.subs| + 1, Pack(topo, sm.sw, sm.tx, sm.pnnl))
  }

  // apply_state at replica `me`: states for others and over-long ones are dropped.
  ghost function Install(topo: Topology, me: nat, sm: Sm, x: StateXfer): (r: Sm)
    requires SmValid(topo, sm)
    ensures SmValid(topo, r)
  {
    if x.target != me || SIGNED_HEADER + XFER_HEADER + |x.state| > MAX_LEN then sm
    else
      var o := Unpack(topo, sm.sw, sm.tx, sm.pnnl, x.numClients, x.state);
      if o.None? then sm
      else Process(topo, sm.(sw := o.value.sw, tx := o.value.tx, pnnl := o.value.pnnl))
  }

  ghost function OnReset(topo: Topology, sm: Sm): (r: Sm)
    requires SmValid(topo, sm)
    ensures SmValid(topo, r)
  {
    InitialSm(topo).(ems := sm.ems)
  }

  ghost function SmStep(topo: Topology, me: nat, sm: Sm, m: SmMsg): (r: (Sm, Option<SmReply>))
    requires SmValid(topo, sm) && Deployable(topo)
    ensures SmValid(topo, r.0)
  {
    match m
    case Forward(_, u) =>
      var (sm1, p) := OnUpdate(topo, sm, u);
      (sm1, if p.Some? then Some(Scada(p.value)) else None)
    case StateRequest(_, target, latest) => (sm, Some(PackedReply(topo, sm, target, latest)))
    case InstallState(x) => (Install(topo, me, sm, x), None)
    case ResetMaster => (OnReset(topo, sm), None)
  }

  /** A fresh master shows everything closed and powered, with no PNNL or EMS
      data, and so does a reset one, which keeps its EMS data. */
  lemma StartExactly(topo: Topology, sm: Sm)
    requires SmValid(topo, sm)
    ensures var a, b := InitialSm(topo), OnReset(topo, sm);
            && (forall w | 0 <= w < |a.sw| :: a.sw[w] == 1 == b.sw[w])
            && (forall i | 0 <= i < |a.tx| :: a.tx[i] == 1 == b.tx[i])
            && (forall e | 0 <= e < |a.stat| :: a.stat[e] == 1 == b.stat[e])
            && (forall k | 0 <= k < RTU_DATA_PAYLOAD_LEN :: a.pnnl[k] == 0 == b.pnnl[k])
            && (forall g, k | 0 <= g < |a.ems| && 0 <= k < EMS_WORDS :: a.ems[g][k] == 0) && b.ems == sm.ems
  {
  }

  /** A state for another replica, or one that does not fit a message with its
      156 and 856 bytes of headers, changes nothing. */
  lemma InstallDrops(topo: Topology, me: nat, sm: Sm, x: StateXfer)
    requires SmValid(topo, sm) && (x.target != me || 156 + 856 + |x.state| > 10000)
    ensures Install(topo, me, sm, x) == sm
  {
  }

  // ---- What a transfer preserves --------------------------------------------------

  // States that no answer can tell apart: EMS data and PNNL padding may differ.
  predicate Equiv(a: Sm, b: Sm) {
    && a.sw == b.sw && a.tx == b.tx && a.stat == b.stat
    && a.pnnl[PNNL_DATA_PADDING..] == b.pnnl[PNNL_DATA_PADDING..]
  }

  // What operators see is what processing would compute.
  ghost predicate Settled(topo: Topology, sm: Sm) {
    SmValid(topo, sm) && sm.stat == topo.StatOf(sm.sw, sm.tx)
  }

  // With everything closed the whole grid is shown powered, as at start-up.
  ghost predicate PoweredAtStart(topo: Topology)
    requires topo.Valid()
  {
    Settled(topo, InitialSm(topo))
  }

  /** Equivalent masters give equal answers and stay equivalent, and settled ones
      stay settled, on every message but an installed state. */
  lemma StepEquiv(topo: Topology, me1: nat, me2: nat, a: Sm, b: Sm, m: SmMsg)
    requires SmValid(topo, a) && SmValid(topo, b) && Deployable(topo)
    requires Equiv(a, b) && !m.InstallState?
    ensures var (a1, r1) := SmStep(topo, me1, a, m);
            var (b1, r2) := SmStep(topo, me2, b, m);
            && r1 == r2 && Equiv(a1, b1)
            && (Settled(topo, a) && !m.ResetMaster? ==> Settled(topo, a1))
  {
    if m.StateRequest? {
      assert Pack(topo, a.sw, a.tx, a.pnnl) == Pack(topo, b.sw, b.tx, b.pnnl);
    } else if m.Forward? {
      OnUpdateEquiv(topo, a, b, m.update);
    }
  }

  lemma OnUpdateEquiv(topo: Topology, a: Sm, b: Sm, u: Update)
    requires SmValid(topo, a) && SmValid(topo, b) && Equiv(a, b)
    ensures var (a1, r1) := OnUpdate(topo, a, u);
            var (b1, r2) := OnUpdate(topo, b, u);
            && r1 == r2 && Equiv(a1, b1) && (Settled(topo, a) ==> Settled(topo, a1))
  {
    if u.HmiCommand? && u.scen == PNNL && 0 <= u.pos < NUM_BREAKER {
      var k := PNNL_WRITE_OFFSET + u.pos;
      assert a.pnnl[k] == a.pnnl[PNNL_DATA_PADDING..][k - PNNL_DATA_PADDING];
      assert b.pnnl[k] == b.pnnl[PNNL_DATA_PADDING..][k - PNNL_DATA_PADDING];
    }
  }

  /** Installing a packed state makes any master settled, with the sender's
      switches, transformers and PNNL data. */
  lemma InstallCopies(topo: Topology, me: nat, src: Sm, dst: Sm, x: StateXfer)
    requires SmValid(topo, src) && SmValid(topo, dst) && Deployable(topo)
    requires x.target == me && x.numClients == |topo.subs| + 1 && x.state == Pack(topo, src.sw, src.tx, src.pnnl)
    ensures var r := Install(topo, me, dst, x);
            && Settled(topo, r) && Equiv(r, Process(topo, src))
            && (Settled(topo, src) ==> Equiv(r, src))
  {
    PackedSize(topo, src.sw, src.tx, src.pnnl);
    RoundTrip(topo, src.sw, src.tx, src.pnnl, dst.sw, dst.tx, dst.pnnl);
  }

  // ---- Masters that differ in what operators see only -----------------------------

  // Operators see the same, or what `a` shows them is what processing computes.
  ghost predicate Near(topo: Topology, a: Sm, b: Sm) {
    && a.sw == b.sw && a.tx == b.tx
    && a.pnnl[PNNL_DATA_PADDING..] == b.pnnl[PNNL_DATA_PADDING..]
    && (a.stat == b.stat || Settled(topo, a))
  }

  // Field data that runs process(), and field data that names no substation: the
  // source sends its status array even for the latter.
  predicate Processes(topo: Topology, u: Update) {
    u.RtuData? && u.body.Jhu? && u.rtuId < |topo.subs|
  }

  predicate ShowsOnly(topo: Topology, u: Update) {
    u.RtuData? && u.body.Jhu? && u.rtuId >= |topo.subs|
  }

  lemma ProcessNear(topo: Topology, b: Sm)
    requires SmValid(topo, b)
    ensures Settled(topo, Process(topo, b)) && Near(topo, Process(topo, b), b)
  {
    StatForgetsPast(topo, b.stat, b.sw, b.tx);
  }

  /** A master near another stays near it.  It answers as the other does, or as
      the other would after processing, and an update that runs process() makes
      what operators see the same again. */
  lemma OnUpdateNear(topo: Topology, a: Sm, b: Sm, u: Update)
    requires SmValid(topo, a) && SmValid(topo, b) && Near(topo, a, b)
    ensures var (a1, r1) := OnUpdate(topo, a, u);
            var (b1, r2) := OnUpdate(topo, b, u);
            && Near(topo, a1, b1) && (Processes(topo, u) ==> Equiv(a1, b1) && Settled(topo, a1) && Settled(topo, b1))
            && (r1 == r2 || r1 == OnUpdate(topo, Process(topo, b), u).1)
            && (ShowsOnly(topo, u) ==> b1 == b)
  {
    ProcessNear(topo, b);
    if a.stat == b.stat {
      OnUpdateEquiv(topo, a, b, u);
    } else {
      OnUpdateEquiv(topo, a, Process(topo, b), u);
    }
  }

  lemma PackNear(topo: Topology, a: Sm, b: Sm)
    requires SmValid(topo, a) && SmValid(topo, b) && Deployable(topo) && Near(topo, a, b)
    ensures Pack(topo, a.sw, a.tx, a.pnnl) == Pack(topo, b.sw, b.tx, b.pnnl)
  {
  }

  // Processing changes what is answered, not whether something is.
  lemma SameAnswered(topo: Topology, sm: Sm, u: Update)
    requires SmValid(topo, sm)
    ensures OnUpdate(topo, Process(topo, sm), u).1.Some? == OnUpdate(topo, sm, u).1.Some?
  {
  }

  /** An update is answered alike by all masters near `b` exactly when it does
      not show `b`'s status array unprocessed. */
  lemma AnswersAlikeExactly(topo: Topology, b: Sm, u: Update)
    requires SmValid(topo, b)
    ensures (forall a | SmValid(topo, a) && Near(topo, a, b) :: OnUpdate(topo, a, u).1 == OnUpdate(topo, b, u).1)
       <==> (ShowsOnly(topo, u) ==> Settled(topo, b))
  {
    ProcessNear(topo, b);
    if ShowsOnly(topo, u) && !Settled(topo, b) {
      var a := Process(topo, b);
      assert OnUpdate(topo, a, u).1.value.view == Bytes(a.stat);
      assert OnUpdate(topo, b, u).1.value.view == Bytes(b.stat);
    } else {
      forall a | SmValid(topo, a) && Near(topo, a, b) ensures OnUpdate(topo, a, u).1 == OnUpdate(topo, b, u).1 {
        NearAnswersAlike(topo, a, b, u);
      }
    }
  }

  lemma NearAnswersAlike(topo: Topology, a: Sm, b: Sm, u: Update)
    requires SmValid(topo, a) && SmValid(topo, b) && Near(topo, a, b) && (ShowsOnly(topo, u) ==> Settled(topo, b))
    ensures OnUpdate(topo, a, u).1 == OnUpdate(topo, b, u).1
  {
    if u.HmiCommand? {
      OnUpdateEquiv(topo, a, b.(stat := a.stat), u);
    }
  }

  // ---- When starting up and joining look the same ------------------------------------

  // A freshly started master, and one that joined by installing its state.
  ghost function JoinedAtStart(topo: Topology, me: nat): (r: Sm)
    requires Deployable(topo)
    ensures SmValid(topo, r)
  {
    var sm := InitialSm(topo);
    Install(topo, me, sm, StateXfer(ZERO, me, NoProgress(), |topo.subs| + 1, Pack(topo, sm.sw, sm.tx, sm.pnnl)))
  }

  lemma JoinedIsProcessed(topo: Topology, me: nat)
    requires Deployable(topo)
    ensures Equiv(JoinedAtStart(topo, me), Process(topo, InitialSm(topo)))
  {
    var init := InitialSm(topo);
    var x := StateXfer(ZERO, me, NoProgress(), |topo.subs| + 1, Pack(topo, init.sw, init.tx, init.pnnl));
    InstallCopies(topo, me, init, init, x);
  }

  // The updates the channel forwards.
  predicate Forwarded(u: Update) {
    u.FromClient() && ValidClient(u)
  }

  /** A replica that never ran process() and one that joined by transfer give
      equal answers to everything the channel forwards exactly when the untouched
      status array is what process() computes, or no field data can name a
      substation that does not exist. */
  lemma StartAgreesExactly(topo: Topology, me: nat)
    requires Deployable(topo)
    ensures (forall u | Forwarded(u) ::
              OnUpdate(topo, InitialSm(topo), u).1 == OnUpdate(topo, JoinedAtStart(topo, me), u).1)
       <==> PoweredAtStart(topo) || |topo.subs| >= NUM_RTU
  {
    var init, joined := InitialSm(topo), JoinedAtStart(topo, me);
    JoinedIsProcessed(topo, me);
    ProcessNear(topo, init);
    if PoweredAtStart(topo) || |topo.subs| >= NUM_RTU {
      forall u | Forwarded(u) ensures OnUpdate(topo, init, u).1 == OnUpdate(topo, joined, u).1 {
        NearAnswersAlike(topo, Process(topo, init), init, u);
        OnUpdateEquiv(topo, Process(topo, init), joined, u);
      }
    } else {
      var words: SwitchWords := seq(MAX_SWITCHES, _ => 0);
      var u := RtuData(SeqPair(0, 1), |topo.subs|, 0, 0, Jhu(0, words));
      assert Forwarded(u);
      assert OnUpdate(topo, init, u).1.value.view == Bytes(init.stat);
      assert OnUpdate(topo, joined, u).1.value.view == Bytes(joined.stat);
      assert init.stat != joined.stat;
    }
  }

  /** With distinct identifiers that is the case exactly when every substation is
      reachable while everything is closed. */
  lemma PoweredAtStartExactly(topo: Topology)
    requires topo.Valid() && DistinctIds(topo)
    ensures var sw, tx := Ones(|topo.swIds|), Ones(|topo.subs|);
            PoweredAtStart(topo) <==> forall i | 0 <= i < |topo.subs| :: topo.Powered(sw, tx, i)
  {
    var sw, tx := Ones(|topo.swIds|), Ones(|topo.subs|);
    var stat := topo.StatOf(sw, tx);
    StatShowsDevices(topo, sw, tx);
    if forall i | 0 <= i < |topo.subs| :: topo.Powered(sw, tx, i) {
      StatForgetsPast(topo, Ones(topo.statLen), sw, tx);
      forall e | 0 <= e < topo.statLen ensures stat[e] == 1 {
        if e in topo.LineIds() {
          var l :| 0 <= l < |topo.lines| && topo.LineIds()[l] == e;
          assert topo.ValidLine(topo.lines[l]) && topo.Powered(sw, tx, topo.lines[l].srcSub);
          assert topo.Energized(sw, tx, l);
        }
      }
      assert stat == Ones(topo.statLen);
    } else {
      var i :| 0 <= i < |topo.subs| && !topo.Powered(sw, tx, i);
      assert stat[topo.subs[i].id] == topo.SubStatus(sw, tx, i);
      assert InitialSm(topo).stat[topo.subs[i].id] == 1;
    }
  }
}
