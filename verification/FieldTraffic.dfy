/** What the SCADA master takes over from the field, what it sends back for an
    operator's command, and that the two fit together. */
module FieldTraffic {
  import opened Ordinals
  import opened Packets
  import opened Grid
  import opened ScadaSpec
  import opened Answering

  // ---- Commands --------------------------------------------------------------------

  // A value that inverts what is shown: on for off, off for anything else.
  predicate Inverts(val: int, status: int) {
    (val == 0 || val == 1) && (val == 1 <==> status == 0)
  }

  // The value of the signed 32-bit word that holds `n`.
  predicate SignedWord(val: int, n: int) {
    -0x8000_0000 <= val < 0x8000_0000 && (val - n) % 0x1_0000_0000 == 0
  }

  // `p` orders the field to do what the command says, at the device it names.
  ghost predicate Orders(topo: Topology, sm: Sm, sp: SeqPair, scen: nat, kind: int, pos: int, p: Payload)
    requires SmValid(topo, sm)
  {
    && p.RtuFeedback? && p.seqp == sp && p.scen == scen && p.rtu == p.sub
    && (if scen == JHU && kind == TRANSFORMER then
          && p.kind == TRANSFORMER && p.offset == 0 && 0 <= p.sub < |topo.txIds| && topo.txIds[p.sub] == pos
          && (forall j | 0 <= j < p.sub :: topo.txIds[j] != pos)
          && Inverts(p.val, sm.tx[p.sub])
        else if scen == JHU && kind == SWITCH then
          && p.kind == SWITCH && 0 <= p.sub && 0 <= p.offset && FirstSwitch(topo, pos, p.sub, p.offset)
          && sm.sw[topo.subs[p.sub].switches[p.offset]] != 2
          && Inverts(p.val, sm.sw[topo.subs[p.sub].switches[p.offset]])
        else if scen == PNNL then
          && p.kind == BREAKER && p.sub == PNNL_RTU_ID && 0 <= pos < NUM_BREAKER && p.offset == pos
          && (kind == BREAKER_FLIP ==> Inverts(p.val, sm.pnnl[RTU_DATA_PAYLOAD_LEN - NUM_BREAKER + pos]))
          && (kind == BREAKER_ON ==> p.val == 1)
          && (kind != BREAKER_FLIP && kind != BREAKER_ON ==> p.val == 0)
        else
          && scen == EMS && p.kind == EMS_TARGET_SET && 0 <= pos < EMS_NUM_GENERATORS
          && p.sub == EMS_RTU_ID_BASE + pos && p.offset == 0
          && SignedWord(p.val, kind))
  }

  lemma {:induction false} FirstTx(topo: Topology, pos: int, from: nat)
    ensures var r := FindTx(topo, pos, from);
            r.Some? ==> r.value <= |topo.txIds| && forall j | from <= j < r.value :: topo.txIds[j] != pos
    decreases |topo.txIds| - from
  {
    if from < |topo.txIds| && topo.txIds[from] != pos {
      FirstTx(topo, pos, from + 1);
    }
  }

  /** What a command sends to the field, if anything: the first device with the
      identifier named, or the breaker or generator numbered, gets the opposite of
      its shown status, the status asked for, or the new target. */
  lemma FeedbackExactly(topo: Topology, sm: Sm, sp: SeqPair, scen: nat, kind: int, pos: int, p: Payload)
    requires SmValid(topo, sm)
    ensures OnHmi(topo, sm, sp, scen, kind, pos).1 == Some(p) <==> Orders(topo, sm, sp, scen, kind, pos, p)
  {
    hide FindTx, FindSwitch, Topology.Untouched, FirstSwitch;
    if scen == JHU && kind == TRANSFORMER {
      TransformerOrders(topo, sm, sp, pos, p);
    } else if scen == JHU && kind == SWITCH {
      SwitchOrders(topo, sm, sp, pos, p);
    } else if scen == EMS && 0 <= pos < EMS_NUM_GENERATORS {
      TargetSigned(kind, if p.RtuFeedback? then p.val else 0);
    }
  }

  lemma TransformerOrders(topo: Topology, sm: Sm, sp: SeqPair, pos: int, p: Payload)
    requires SmValid(topo, sm)
    ensures OnHmi(topo, sm, sp, JHU, TRANSFORMER, pos).1 == Some(p) <==> Orders(topo, sm, sp, JHU, TRANSFORMER, pos, p)
  {
    FindTxExact(topo, pos, 0);
    FirstTx(topo, pos, 0);
  }

  lemma SwitchOrders(topo: Topology, sm: Sm, sp: SeqPair, pos: int, p: Payload)
    requires SmValid(topo, sm)
    ensures OnHmi(topo, sm, sp, JHU, SWITCH, pos).1 == Some(p) <==> Orders(topo, sm, sp, JHU, SWITCH, pos, p)
  {
    hide FindSwitch, Topology.Untouched;
    var f := FindSwitch(topo, pos, 0);
    if f.Some? {
      FindSwitchExact(topo, pos, f.value.0, f.value.1);
    }
    if p.RtuFeedback? && 0 <= p.sub && 0 <= p.offset {
      FindSwitchExact(topo, pos, p.sub, p.offset);
    }
  }

  lemma TargetSigned(kind: int, val: int)
    ensures SignedWord(val, kind) <==> val == ToSigned(kind % EMS_WORD)
  {
    var v := ToSigned(kind % EMS_WORD);
    assert (v - kind) % 0x1_0000_0000 == 0;
    if SignedWord(val, kind) {
      assert (val - v) % 0x1_0000_0000 == 0;
    }
  }

  /** A command changes nothing in the master but a generator's target, which
      becomes the commanded one as a 32-bit word. */
  lemma CommandKeeps(topo: Topology, sm: Sm, sp: SeqPair, scen: nat, kind: int, pos: int)
    requires SmValid(topo, sm)
    ensures var r := OnHmi(topo, sm, sp, scen, kind, pos).0;
            && r == sm.(ems := r.ems) && |r.ems| == |sm.ems|
            && forall g, w | 0 <= g < |sm.ems| && 0 <= w < EMS_WORDS ::
                 if scen == EMS && g == pos && w == EMS_TARGET_WORD
                 then 0 <= r.ems[g][w] < 0x1_0000_0000 && (r.ems[g][w] - kind) % 0x1_0000_0000 == 0
                 else r.ems[g][w] == sm.ems[g][w]
  {
    hide FindTx, FindSwitch, Topology.Untouched;
  }

  // ---- Field data ------------------------------------------------------------------

  /** The word at a place of the report goes to the switch at that place of the
      substation's list, if it is 0, 1 or 2; no other switch changes. */
  lemma {:induction false} MergeExactly(sw: seq<byte>, list: seq<nat>, words: seq<int>)
    requires |list| <= |words| && (forall a | 0 <= a < |list| :: list[a] < |sw|)
    requires forall a, b | 0 <= a < b < |list| :: list[a] != list[b]
    ensures var r := MergeSwitches(sw, list, words);
            && |r| == |sw|
            && (forall a | 0 <= a < |list| ::
                  r[list[a]] == if words[a] == 0 || words[a] == 1 || words[a] == 2 then words[a] else sw[list[a]])
            && (forall e | 0 <= e < |sw| && e !in list :: r[e] == sw[e])
    decreases |list|
  {
    if list != [] {
      var n := |list| - 1;
      var init := list[..n];
      MergeExactly(sw, init, words);
      assert list == init + [list[n]] && list[n] !in init;
      var s, r := MergeSwitches(sw, init, words), MergeSwitches(sw, list, words);
      assert r == if words[n] == 0 || words[n] == 1 || words[n] == 2 then s[list[n] := words[n]] else s;
      forall a | 0 <= a < |list|
        ensures r[list[a]] == if words[a] == 0 || words[a] == 1 || words[a] == 2 then words[a] else sw[list[a]]
      {
        if a < n {
          assert init[a] == list[a];
        }
      }
    }
  }

  // What the report of a substation leaves of switches and transformers.
  predicate TakenOver(topo: Topology, sm: Sm, r: Sm, id: nat, txWord: int, words: SwitchWords)
    requires SmValid(topo, sm) && SmValid(topo, r) && id < |topo.subs| && topo.ValidSub(id)
  {
    var list := topo.subs[id].switches;
    && (forall a | 0 <= a < |list| ::
          r.sw[list[a]] == if words[a] == 0 || words[a] == 1 || words[a] == 2 then words[a] else sm.sw[list[a]])
    && (forall e | 0 <= e < |sm.sw| && e !in list :: r.sw[e] == sm.sw[e])
    && (forall i | 0 <= i < |sm.tx| ::
          r.tx[i] == if i == id && (txWord == 0 || txWord == 1) then txWord else sm.tx[i])
    && r.pnnl == sm.pnnl && r.ems == sm.ems
  }

  /** A substation's report: each known word is taken over by its own switch or
      transformer, everything else stays, and operators get the array processed
      from the result.  A report naming no substation changes nothing, but the
      array is sent all the same. */
  lemma ReportExactly(topo: Topology, sm: Sm, sp: SeqPair, id: nat, sec: nat, usec: nat,
                      txWord: int, words: SwitchWords)
    requires SmValid(topo, sm)
    ensures var (r, p) := OnRtu(topo, sm, sp, id, sec, usec, Jhu(txWord, words));
            && p == Some(HmiUpdate(sp, JHU, sec, usec, Bytes(r.stat)))
            && if id < |topo.subs| then
                 topo.ValidSub(id) && TakenOver(topo, sm, r, id, txWord, words) && r.stat == topo.StatOf(r.sw, r.tx)
               else r == sm
  {
    hide MergeSwitches, Topology.StatOf, Topology.Untouched;
    if id < |topo.subs| {
      assert topo.ValidSub(id);
      MergeExactly(sm.sw, topo.subs[id].switches, words);
    }
  }

  /** The other scenarios: the payload replaces the PNNL data, or the data of the
      generator it names, and operators get what was taken over. */
  lemma OtherFieldData(topo: Topology, sm: Sm, sp: SeqPair, id: nat, sec: nat, usec: nat,
                       fields: PnnlFields, words: EmsFields, code: nat)
    requires SmValid(topo, sm)
    ensures OnRtu(topo, sm, sp, id, sec, usec, Pnnl(fields)) ==
            (sm.(pnnl := fields), Some(HmiUpdate(sp, PNNL, sec, usec, Bytes(fields[4..]))))
    ensures var (r, p) := OnRtu(topo, sm, sp, id, sec, usec, Ems(words));
            if words[0] < 6 then
              && r == sm.(ems := r.ems) && |r.ems| == 6 && p == Some(HmiUpdate(sp, EMS, sec, usec, Words(words)))
              && (forall g | 0 <= g < 6 :: r.ems[g] == if g == words[0] then words else sm.ems[g])
            else r == sm && p == None
    ensures OnRtu(topo, sm, sp, id, sec, usec, UnknownScenario(code)) == (sm, None)
  {
  }

  /** A benchmark comes back with its own numbers and no times of the master's, a
      message that is no client's gets no answer, and neither changes anything. */
  lemma OtherUpdates(topo: Topology, sm: Sm, u: Update)
    requires SmValid(topo, sm) && !u.RtuData? && !u.HmiCommand?
    ensures OnUpdate(topo, sm, u) ==
            (sm, if u.Benchmark? then Some(BenchmarkReply(u.seqp, u.sender, u.pingSec, u.pingUsec, 0, 0)) else None)
  {
  }

  // ---- The loop through the field --------------------------------------------------

  /** When a substation has carried out what was ordered for a switch or its
      transformer and reports so, the master holds that status; for a device that
      was off or on it is the opposite of the one before. */
  lemma CommandTakesEffect(topo: Topology, sm: Sm, sp: SeqPair, kind: int, pos: int, p: Payload,
                           sp': SeqPair, sec: nat, usec: nat, txWord: int, words: SwitchWords)
    requires SmValid(topo, sm) && (kind == SWITCH || kind == TRANSFORMER)
    requires OnHmi(topo, sm, sp, JHU, kind, pos).1 == Some(p)
    requires p.RtuFeedback?
    requires if kind == TRANSFORMER then txWord == p.val else 0 <= p.offset < |words| && words[p.offset] == p.val
    ensures 0 <= p.rtu < |topo.subs|
    ensures var r := OnRtu(topo, sm, sp', p.rtu, sec, usec, Jhu(txWord, words)).0;
            if kind == TRANSFORMER then topo.txIds[p.rtu] == pos && Inverts(r.tx[p.rtu], sm.tx[p.rtu])
            else
              && 0 <= p.offset < |topo.subs[p.rtu].switches| && topo.subs[p.rtu].switches[p.offset] < |sm.sw|
              && var w := topo.subs[p.rtu].switches[p.offset];
                 topo.swIds[w] == pos && Inverts(r.sw[w], sm.sw[w])
  {
    hide OnHmi, OnRtu, Topology.Untouched, Topology.StatOf;
    FeedbackExactly(topo, sm, sp, JHU, kind, pos, p);
    assert topo.ValidSub(p.rtu);
    ReportExactly(topo, sm, sp', p.rtu, sec, usec, txWord, words);
  }
}
