/** State collection: agreement in a slot is exact, and what a signal, an
    arriving state and a completed transfer keep of the ST queue. */
module StInvariants {
  import opened Ordinals
  import opened Packets
  import opened Slots
  import opened ItrcSpec

  // f + 1 senders reported this state.
  ghost predicate Agreed(cfg: Config, b: StBody, st: StateXfer) {
    |Reporting(b.states, st)| >= cfg.ReqShares()
  }

  ghost predicate StSlotInv(cfg: Config, slot: StSlot) {
    var b := slot.body;
    && b.count == |b.states|
    && (forall i | i in b.states :: cfg.IsReplica(i) && i != cfg.me && Same(b.states[i].ord, slot.ord))
    && (b.collected <==> b.result.Some?)
    && (b.collected ==> b.result.value in b.states && Agreed(cfg, b, b.states[b.result.value]))
    && (forall st | Agreed(cfg, b, st) :: b.collected)
  }

  /** A slot counts as collected exactly when some state was reported by f + 1 senders. */
  lemma AgreementExact(cfg: Config, slot: StSlot)
    requires StSlotInv(cfg, slot)
    ensures slot.body.collected <==> exists st :: Agreed(cfg, slot.body, st)
  {
  }

  lemma ReportingGrows(states: map<nat, StateXfer>, i: nat, st: StateXfer, other: StateXfer)
    requires i !in states
    ensures Reporting(states[i := st], other) ==
            if other == st then Reporting(states, other) + {i} else Reporting(states, other)
    ensures |Reporting(states[i := st], other)| ==
            |Reporting(states, other)| + if other == st then 1 else 0
  {
  }

  lemma ReportingBounded(states: map<nat, StateXfer>, st: StateXfer)
    ensures Reporting(states, st) <= states.Keys && |Reporting(states, st)| <= |states|
  {
    SubsetSize(Reporting(states, st), states.Keys);
  }

  lemma {:induction false} SubsetSize<T>(a: set<T>, b: set<T>)
    requires a <= b
    ensures |a| <= |b|
    ensures |a| == |b| ==> a == b
    decreases |b|
  {
    assert b == a + (b - a);
  }

  /** Recording a state keeps the slot's invariant, never overwrites an agreed
      result, and reports completion only on the step that first makes the slot
      both agreed and signaled. */
  lemma RecordStateInv(cfg: Config, slot: StSlot, st: StateXfer, sender: nat)
    requires StSlotInv(cfg, slot) && cfg.IsReplica(sender) && Same(st.ord, slot.ord)
    ensures var b, r := slot.body, RecordState(cfg, slot.body, st, sender);
            && StSlotInv(cfg, Slot(slot.ord, r))
            && (b.collected ==>
                  r.collected && r.result == b.result && r.states[r.result.value] == b.states[b.result.value])
            && (r.signaled <==> b.signaled || sender == cfg.me)
            && (!(b.collected && b.signaled) ==> (Completes(cfg, b, r, sender) <==> r.collected && r.signaled))
  {
    var b, r := slot.body, RecordState(cfg, slot.body, st, sender);
    if sender != cfg.me && sender !in b.states {
      forall other ensures |Reporting(r.states, other)| == |Reporting(b.states, other)| + if other == st then 1 else 0 {
        ReportingGrows(b.states, sender, st, other);
      }
      ReportingBounded(r.states, st);
      assert |r.states| == |b.states| + 1;
      forall v | Agreed(cfg, r, v) ensures r.collected {
        ReportingGrows(b.states, sender, st, v);
        if v != st {
          assert Agreed(cfg, b, v);
        }
      }
    } else {
      forall v | Agreed(cfg, r, v) ensures r.collected {
        assert Agreed(cfg, b, v);
      }
    }
  }

  // `at` is where a signaled slot may stand: the ordinal of the transfer under way.
  ghost predicate StInv(cfg: Config, q: seq<StSlot>, collecting: bool, at: Ordinal) {
    && Sorted(q)
    && (forall i | 0 <= i < |q| :: StSlotInv(cfg, q[i]))
    && (forall i | 0 <= i < |q| && q[i].body.signaled ::
          collecting && Same(q[i].ord, at) && !q[i].body.collected)
  }

  // The transfer just completed: its slot alone is signaled and agreed.
  ghost predicate Complete(cfg: Config, q: seq<StSlot>, at: Ordinal) {
    && Has(q, at)
    && q[Position(q, at)].body.signaled && q[Position(q, at)].body.collected
  }

  // Like StInv, but with the slot at `at` possibly complete.
  ghost predicate StInvMid(cfg: Config, q: seq<StSlot>, collecting: bool, at: Ordinal) {
    && Sorted(q)
    && (forall i | 0 <= i < |q| :: StSlotInv(cfg, q[i]))
    && (forall i | 0 <= i < |q| && q[i].body.signaled :: collecting && Same(q[i].ord, at))
  }

  lemma SortedSame<T>(q: seq<Slot<T>>, i: nat, o: Ordinal)
    requires Sorted(q) && i < |q| && Same(q[i].ord, o)
    ensures Position(q, o) == i && Has(q, o)
  {
    PositionUnique(q, o, i);
  }

  // Changing one slot of a queue without a completed transfer.
  lemma SetBodyInv(cfg: Config, q: seq<StSlot>, k: nat, b: StBody, collecting: bool, at: Ordinal)
    requires StInv(cfg, q, collecting, at) && k < |q| && StSlotInv(cfg, Slot(q[k].ord, b))
    requires b.signaled ==> collecting && Same(q[k].ord, at)
    ensures StInvMid(cfg, SetBody(q, k, b), collecting, at)
    ensures !(b.signaled && b.collected) ==> StInv(cfg, SetBody(q, k, b), collecting, at)
    ensures Position(SetBody(q, k, b), q[k].ord) == k && Has(SetBody(q, k, b), q[k].ord)
  {
    SortedSame(SetBody(q, k, b), k, q[k].ord);
  }

  lemma EnsureInv(cfg: Config, q: seq<StSlot>, o: Ordinal, collecting: bool, at: Ordinal)
    requires StInv(cfg, q, collecting, at)
    ensures StInv(cfg, Ensure(q, o, BLANK_ST), collecting, at)
  {
    EnsureSorted(q, o, BLANK_ST);
    BlankInv(cfg, o);
  }

  /** An arriving state or signal: either nothing completes and the queue's
      invariant holds, or exactly the transfer at the bound has just completed. */
  lemma InsertStInv(cfg: Config, recvd: Ordinal, applied: Ordinal, q: seq<StSlot>, collecting: bool, at: Ordinal,
                    st: StateXfer, sender: nat)
    requires StInv(cfg, q, collecting, at) && cfg.IsReplica(sender)
    requires sender == cfg.me ==> collecting && Same(st.ord, at)
    ensures var (r, complete) := InsertSt(cfg, recvd, applied, q, st, sender);
            && StInvMid(cfg, r, collecting, at)
            && (!complete ==> StInv(cfg, r, collecting, at))
            && (complete ==>
                  collecting && Same(st.ord, at) && Complete(cfg, r, st.ord) && !OldState(recvd, applied, st.ord))
            && (sender == cfg.me && !OldState(recvd, applied, st.ord) ==>
                  Has(r, st.ord) && r[Position(r, st.ord)].body.signaled)
  {
    if !OldState(recvd, applied, st.ord) {
      var q1, k := Ensure(q, st.ord, BLANK_ST), Position(q, st.ord);
      EnsureInv(cfg, q, st.ord, collecting, at);
      var b := RecordState(cfg, q1[k].body, st, sender);
      RecordStateInv(cfg, q1[k], st, sender);
      SetBodyInv(cfg, q1, k, b, collecting, at);
      SortedSame(SetBody(q1, k, b), k, st.ord);
    }
  }

  lemma BlankInv(cfg: Config, o: Ordinal)
    ensures StSlotInv(cfg, Slot(o, BLANK_ST))
  {
    forall st ensures !Agreed(cfg, BLANK_ST, st) {
      assert Reporting(map[], st) == {};
    }
  }

  /** A completed transfer always finds its agreed state. */
  lemma CompleteHasState(cfg: Config, q: seq<StSlot>, at: Ordinal)
    requires (forall i | 0 <= i < |q| :: StSlotInv(cfg, q[i])) && Complete(cfg, q, at)
    ensures AgreedState(q, at).Some?
    ensures var b := q[Position(q, at)].body;
            AgreedState(q, at).value == b.states[b.result.value] && Agreed(cfg, b, AgreedState(q, at).value)
            && Same(AgreedState(q, at).value.ord, at)
  {
  }

  /** A first state from a peer is kept, whatever it is and whether or not the
      transfer was signaled; a second one from the same peer is ignored; the own
      signal only sets the mark. */
  lemma StateExactly(cfg: Config, b: StBody, st: StateXfer, sender: nat)
    ensures var r := RecordState(cfg, b, st, sender);
            if sender == cfg.me then r == b.(signaled := true)
            else if sender in b.states then r == b
            else
              && r.states == b.states[sender := st] && r.signaled == b.signaled && r.count == b.count + 1
              && (r.collected <==> b.collected || (b.count >= cfg.f && |Reporting(r.states, st)| >= cfg.f + 1))
              && r.result == if r.collected && !b.collected then Some(sender) else b.result
  {
  }

  function BodyOf(q: seq<StSlot>, o: Ordinal): StBody {
    if Has(q, o) then q[Position(q, o)].body else BLANK_ST
  }

  /** A state is recorded in its ordinal's slot exactly when it is not older than
      the last ordinal received and newer than what is applied. */
  lemma InsertStExactly(cfg: Config, recvd: Ordinal, applied: Ordinal, q: seq<StSlot>, st: StateXfer, sender: nat)
    requires Sorted(q)
    ensures var r := InsertSt(cfg, recvd, applied, q, st, sender).0;
            if Less(st.ord, recvd) || !Less(applied, st.ord) then r == q
            else Sorted(r) && Has(r, st.ord) && BodyOf(r, st.ord) == RecordState(cfg, BodyOf(q, st.ord), st, sender)
  {
    hide RecordState;
    EnsureSorted(q, st.ord, BLANK_ST);
    if !OldState(recvd, applied, st.ord) {
      PositionUnique(InsertSt(cfg, recvd, applied, q, st, sender).0, st.ord, Position(q, st.ord));
    }
  }
}
