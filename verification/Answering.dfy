/** Which updates a SCADA master answers, and why the channel depends on it
    answering every one of them. */
module Answering {
  import opened Ordinals
  import opened Packets
  import opened Grid
  import opened ScadaSpec
  import opened Reference
  import opened ItrcSpec
  import opened ReplicaTracking

  // ---- Lookup by identifier ----------------------------------------------------------

  lemma {:induction false} FindTxExact(topo: Topology, pos: int, from: nat)
    ensures var r := FindTx(topo, pos, from);
            && (r.Some? ==> from <= r.value < |topo.txIds| && topo.txIds[r.value] == pos)
            && (r.None? ==> forall i | from <= i < |topo.txIds| :: topo.txIds[i] != pos)
    decreases |topo.txIds| - from
  {
    if from < |topo.txIds| && topo.txIds[from] != pos {
      FindTxExact(topo, pos, from + 1);
    }
  }

  lemma {:induction false} FindInListExact(topo: Topology, list: seq<nat>, pos: int, from: nat)
    requires forall a | 0 <= a < |list| :: list[a] < |topo.swIds|
    ensures var r := FindInList(topo, list, pos, from);
            && (r.Some? ==> from <= r.value && topo.swIds[list[r.value]] == pos
                            && forall a | from <= a < r.value :: topo.swIds[list[a]] != pos)
            && (r.None? ==> forall a | from <= a < |list| :: topo.swIds[list[a]] != pos)
    decreases |list| - from
  {
    if from < |list| && topo.swIds[list[from]] != pos {
      FindInListExact(topo, list, pos, from + 1);
    }
  }

  predicate SwitchIs(topo: Topology, pos: int, i: nat, a: nat)
    requires topo.Valid()
  {
    i < |topo.subs| && topo.ValidSub(i) && a < |topo.subs[i].switches| && topo.swIds[topo.subs[i].switches[a]] == pos
  }

  // Place (i, a) is the first, by substation and then by list place, with this identifier.
  ghost predicate FirstSwitch(topo: Topology, pos: int, i: nat, a: nat)
    requires topo.Valid()
  {
    && SwitchIs(topo, pos, i, a)
    && forall j: nat, b: nat | SwitchIs(topo, pos, j, b) :: i < j || (i == j && a <= b)
  }

  lemma {:induction false} FindSwitchFrom(topo: Topology, pos: int, from: nat)
    requires topo.Valid()
    ensures var r := FindSwitch(topo, pos, from);
            && (r.Some? ==> from <= r.value.0 && SwitchIs(topo, pos, r.value.0, r.value.1)
                            && forall j: nat, b: nat | from <= j && SwitchIs(topo, pos, j, b) ::
                                 r.value.0 < j || (r.value.0 == j && r.value.1 <= b))
            && (r.None? ==> forall j: nat, b: nat | from <= j :: !SwitchIs(topo, pos, j, b))
    decreases |topo.subs| - from
  {
    if from < |topo.subs| {
      assert topo.ValidSub(from);
      FindInListExact(topo, topo.subs[from].switches, pos, 0);
      FindSwitchFrom(topo, pos, from + 1);
    }
  }

  /** Searching all lists finds the first switch with an identifier, and finds
      one whenever there is one. */
  lemma FindSwitchExact(topo: Topology, pos: int, i: nat, a: nat)
    requires topo.Valid()
    ensures FindSwitch(topo, pos, 0) == Some((i, a)) <==> FirstSwitch(topo, pos, i, a)
    ensures FindSwitch(topo, pos, 0).None? <==> forall j: nat, b: nat :: !SwitchIs(topo, pos, j, b)
  {
    FindSwitchFrom(topo, pos, 0);
  }

  // ---- Which updates are answered ------------------------------------------------------

  ghost predicate NamesTransformer(topo: Topology, pos: int) {
    exists i: nat :: i < |topo.txIds| && topo.txIds[i] == pos
  }

  // The switch the command acts on exists and is not tripped.
  ghost predicate NamesWorkingSwitch(topo: Topology, sm: Sm, pos: int)
    requires SmValid(topo, sm)
  {
    exists i: nat, a: nat :: FirstSwitch(topo, pos, i, a) && sm.sw[topo.subs[i].switches[a]] != 2
  }

  ghost predicate Answerable(topo: Topology, sm: Sm, u: Update)
    requires SmValid(topo, sm)
  {
    match u
    case HmiCommand(_, _, scen, kind, pos) =>
      || (scen == JHU && kind == TRANSFORMER && NamesTransformer(topo, pos))
      || (scen == JHU && kind == SWITCH && NamesWorkingSwitch(topo, sm, pos))
      || (scen == PNNL && 0 <= pos < NUM_BREAKER)
      || (scen == EMS && 0 <= pos < EMS_NUM_GENERATORS)
    case _ => true
  }

  /** A valid client update is answered exactly when it is field data, a
      benchmark, or a command naming a device that can act. */
  lemma AnsweredExactly(topo: Topology, sm: Sm, u: Update)
    requires SmValid(topo, sm) && u.FromClient() && ValidClient(u)
    ensures OnUpdate(topo, sm, u).1.Some? <==> Answerable(topo, sm, u)
  {
    if u.HmiCommand? && u.scen == JHU {
      FindTxExact(topo, u.pos, 0);
      if u.kind == SWITCH {
        SwitchAnswered(topo, sm, u.seqp, u.pos);
      }
    }
  }

  lemma SwitchAnswered(topo: Topology, sm: Sm, sp: SeqPair, pos: int)
    requires SmValid(topo, sm)
    ensures OnHmi(topo, sm, sp, JHU, SWITCH, pos).1.Some? <==> NamesWorkingSwitch(topo, sm, pos)
  {
    var f := FindSwitch(topo, pos, 0);
    if f.Some? {
      FindSwitchExact(topo, pos, f.value.0, f.value.1);
      assert FirstSwitch(topo, pos, f.value.0, f.value.1);
    }
    forall i: nat, a: nat | FirstSwitch(topo, pos, i, a) ensures f == Some((i, a)) {
      FindSwitchExact(topo, pos, i, a);
    }
  }

  // ---- Why every question needs its answer -----------------------------------------------

  ghost predicate AnsweredIn(w: World, r: nat, msgs: seq<SmMsg>, n: nat)
    requires Deployable(w.topo)
  {
    n < |msgs| && Asks(msgs[n]) ==> SmStep(w.topo, r, SmAfter(w, r, msgs[..n]), msgs[n]).1.Some?
  }

  /** The channel pairs the n-th answer with the n-th question.  A master gives as
      many answers as it was asked questions exactly when it answered each one. */
  lemma {:induction false} PairingExact(w: World, r: nat, msgs: seq<SmMsg>)
    requires Deployable(w.topo)
    ensures |Replies(w, r, msgs)| <= |Tags(msgs)|
    ensures |Replies(w, r, msgs)| == |Tags(msgs)| <==> forall n: nat :: AnsweredIn(w, r, msgs, n)
    decreases |msgs|
  {
    hide Topology.Valid;
    if msgs != [] {
      var init, k := msgs[..|msgs| - 1], |msgs| - 1;
      PairingExact(w, r, init);
      forall n: nat | n < k ensures AnsweredIn(w, r, init, n) <==> AnsweredIn(w, r, msgs, n) {
        assert init[..n] == msgs[..n];
      }
      assert msgs[..k] == init;
      if |Replies(w, r, msgs)| != |Tags(msgs)| {
        if |Replies(w, r, init)| != |Tags(init)| {
          var n: nat :| !AnsweredIn(w, r, init, n);
          assert !AnsweredIn(w, r, msgs, n);
        } else {
          assert !AnsweredIn(w, r, msgs, k);
        }
      } else {
        assert AnsweredIn(w, r, msgs, k);
      }
    }
  }

  // A command of a kind the master does not know.
  function OddCommand(sp: SeqPair, hmi: ClientIndex): Update {
    HmiCommand(sp, hmi, JHU, 7, 0)
  }

  /** One unanswered command is enough to go wrong: the answer to the next update
      is signed under the command's ordinal. */
  lemma AnswerMisplaced(w: World, r: nat, o1: Ordinal, sp: SeqPair, hmi: ClientIndex, o2: Ordinal, u: Update, s: State)
    requires Deployable(w.topo) && u.FromClient() && ValidClient(u) && !u.HmiCommand?
    requires !s.halted && s.ordq == [o1, o2] && s.toSm == [Forward(o1, OddCommand(sp, hmi)), Forward(o2, u)]
    ensures var p := OnUpdate(w.topo, InitialSm(w.topo), u).1;
            && p.Some? && Replies(w, r, s.toSm) == [Scada(p.value)]
            && Step(w.Cfg(r), s, MasterReply(Scada(p.value))).shares
                == s.shares + [ShareMsg(o1, p.value, Genuine(r, o1, p.value))]
  {
    hide Replies, OnUpdate, Topology.Valid, Step;
    var a, b := Forward(o1, OddCommand(sp, hmi)), Forward(o2, u);
    AnsweredExactly(w.topo, InitialSm(w.topo), u);
    OddUnanswered(w.topo, r, InitialSm(w.topo), o1, sp, hmi);
    RepliesAppend(w, r, [], a);
    RepliesAppend(w, r, [a], b);
    SmAfterAppend(w, r, [], a);
    assert [] + [a] == [a] && [a] + [b] == s.toSm;
    FrontSigned(w.Cfg(r), s, o1, OnUpdate(w.topo, InitialSm(w.topo), u).1.value);
  }

  lemma RepliesAppend(w: World, r: nat, msgs: seq<SmMsg>, m: SmMsg)
    requires Deployable(w.topo)
    ensures Replies(w, r, []) == []
    ensures Replies(w, r, msgs + [m]) == Replies(w, r, msgs) +
              var reply := SmStep(w.topo, r, SmAfter(w, r, msgs), m).1; if reply.Some? then [reply.value] else []
  {
    assert (msgs + [m])[..|msgs|] == msgs;
  }

  lemma OddUnanswered(topo: Topology, r: nat, sm: Sm, o: Ordinal, sp: SeqPair, hmi: ClientIndex)
    requires SmValid(topo, sm) && Deployable(topo)
    ensures SmStep(topo, r, sm, Forward(o, OddCommand(sp, hmi))) == (sm, None)
  {
  }

  // The answer goes out under the ordinal at the front.
  lemma FrontSigned(cfg: Config, s: State, o: Ordinal, p: Payload)
    requires !s.halted && s.ordq != [] && s.ordq[0] == o
    ensures Step(cfg, s, MasterReply(Scada(p))).shares == s.shares + [ShareMsg(o, p, Genuine(cfg.me, o, p))]
  {
  }
}
