/** What the source does to its two linked queues: inserting shares and states,
    combining signatures, and taking finished slots off the front. */
module QueueOps {
  import opened Ordinals
  import opened Packets
  import opened Slots
  import opened LinkedQueue
  import opened ItrcSpec
  import Finals

  // ---- Combining shares ---------------------------------------------------------------

  predicate Stored(b: TcBody, idxs: seq<nat>) {
    forall j | 0 <= j < |idxs| :: idxs[j] in b.shares
  }

  // Replica n holds a share for exactly this ordinal.
  predicate Fits(b: TcBody, o: Ordinal, n: nat) {
    n in b.recvd && n in b.shares && b.shares[n].ord == o
  }

  lemma CombineNext(b: TcBody, o: Ordinal, n: nat)
    requires n > 0
    ensures Stored(b, Matching(b, o, n - 1)) && Stored(b, Matching(b, o, n))
    ensures Matching(b, o, n) == Matching(b, o, n - 1) + if Fits(b, o, n) then [n] else []
    ensures Combine(b, Matching(b, o, n)) ==
              if Fits(b, o, n) then Combine(b, Matching(b, o, n - 1))[n := b.shares[n].sig]
              else Combine(b, Matching(b, o, n - 1))
  {
    MatchingStored(b, o, n - 1);
    MatchingStored(b, o, n);
  }

  /** PKT_Construct_TC_Final_Msg: one pass over the replicas gathers the shares on
      exactly this ordinal and the first such payload. */
  method CombineShares(cfg: Config, o: Ordinal, b: TcBody) returns (r: Option<TcFinal>)
    ensures r == ConstructFinal(cfg, o, b)
    ensures b.count == |b.recvd| ==> forall fin :: r == Some(fin) <==> Finals.FinalOf(cfg, b, o, fin)
  {
    hide Matching, Combine, VerifyThresh, Finals.FinalOf;
    FinalMeans(cfg, o, b);
    if b.count < cfg.ReqShares() {
      return None;
    }
    var fin, copied, count := TcFinal(o, NoPayload, map[]), false, 0;
    ghost var idxs: seq<nat> := [];
    NoneYet(b, o);
    for i := 1 to cfg.NumSm() + 1
      invariant idxs == Matching(b, o, i - 1) && count == |idxs| && Stored(b, idxs)
      invariant fin.ord == o && fin.sig == Combine(b, idxs)
      invariant copied <==> count > 0
      invariant copied ==> fin.payload == b.shares[idxs[0]].payload
    {
      CombineNext(b, o, i);
      if Fits(b, o, i) {
        if !copied {
          fin, copied := fin.(payload := b.shares[i].payload), true;
        }
        fin, count := fin.(sig := fin.sig[i := b.shares[i].sig]), count + 1;
      }
      idxs := Matching(b, o, i);
    }
    if count < cfg.ReqShares() || !VerifyThresh(cfg.f, fin) {
      return None;
    }
    return Some(fin);
  }

  lemma FinalMeans(cfg: Config, o: Ordinal, b: TcBody)
    ensures b.count == |b.recvd| ==>
              forall fin :: ConstructFinal(cfg, o, b) == Some(fin) <==> Finals.FinalOf(cfg, b, o, fin)
  {
    forall fin | b.count == |b.recvd|
      ensures ConstructFinal(cfg, o, b) == Some(fin) <==> Finals.FinalOf(cfg, b, o, fin)
    {
      Finals.FinalExactly(cfg, o, b, fin);
    }
  }

  lemma NoneYet(b: TcBody, o: Ordinal)
    ensures Matching(b, o, 0) == [] && Combine(b, []) == map[]
  {
  }

  // A share, or an empty slot, in a slot that the search has found.
  method RecordShare(cfg: Config, was: TcBody, sh: ShareMsg, sender: nat, skip: bool) returns (b: TcBody)
    ensures b == ItrcSpec.RecordShare(cfg, was, sh, sender, skip)
  {
    hide ConstructFinal;
    b := was;
    if b.done || sender in b.recvd {
      return;
    }
    b := b.(recvd := b.recvd + {sender}, count := b.count + 1);
    if skip {
      b := b.(done := true, skip := true);
      return;
    }
    b := b.(shares := b.shares[sender := sh]);
    if b.count >= cfg.ReqShares() && cfg.me in b.recvd {
      var fin := CombineShares(cfg, sh.ord, b);
      b := b.(tcf := fin, skip := fin.None?, done := true);
    }
  }

  /** ITRC_Insert_TC_ID: finds or creates the slot, then records the share in it. */
  method InsertTc(cfg: Config, applied: Ordinal, tcq: OrderedQueue<TcBody>, sh: ShareMsg, sender: nat, skip: bool)
    requires tcq.Valid() && Sorted(tcq.Contents())
    modifies tcq.Repr
    ensures tcq.Valid() && Sorted(tcq.Contents()) && fresh(tcq.Repr - old(tcq.Repr))
    ensures tcq.Contents() == ItrcSpec.InsertTc(cfg, applied, old(tcq.Contents()), sh, sender, skip)
  {
    hide ItrcSpec.RecordShare, Position, Ensure, Has, OrderedQueue.Contents;
    if Compare(sh.ord, applied) <= 0 {
      return;
    }
    ghost var q, k := tcq.Contents(), Position(tcq.Contents(), sh.ord);
    EnsureSorted(q, sh.ord, BLANK_TC);
    var n := tcq.Locate(sh.ord, BLANK_TC);
    assert n.body == tcq.Contents()[k].body;
    var b := RecordShare(cfg, n.body, sh, sender, skip);
    tcq.SetBody(n, k, b);
  }

  // What is still to come of a pass that has taken `taken` so far.
  function Rest(cfg: Config, applied: Ordinal, q: seq<TcSlot>, out: Option<TcFinal>, ready: bool,
                taken: seq<Consumed>): Ready {
    if ready then Ready(out, true, applied, q, taken)
    else
      var d := ItrcSpec.ReadyDeliver(cfg, applied, q);
      d.(consumed := taken + d.consumed)
  }

  lemma RestStep(cfg: Config, applied: Ordinal, q: seq<TcSlot>, taken: seq<Consumed>)
    requires FrontReady(cfg, applied, q)
    ensures var o, b := q[0].ord, q[0].body;
            Rest(cfg, applied, q, None, false, taken) ==
            if b.skip then Rest(cfg, o, q[1..], None, false, taken + [Skipped(o)])
            else Rest(cfg, o, q[1..], b.tcf, true, taken + [Delivered(o)])
  {
    var d := ItrcSpec.ReadyDeliver(cfg, q[0].ord, q[1..]);
    assert taken + ([Skipped(q[0].ord)] + d.consumed) == taken + [Skipped(q[0].ord)] + d.consumed;
  }

  lemma RestStop(cfg: Config, applied: Ordinal, q: seq<TcSlot>, taken: seq<Consumed>)
    requires !FrontReady(cfg, applied, q)
    ensures Rest(cfg, applied, q, None, false, taken) == Ready(None, false, applied, q, taken)
  {
    assert taken + [] == taken;
  }

  /** ITRC_TC_Ready_Deliver: takes finished slots off the front while they are
      next in line, up to the first that carries something to deliver. */
  method ReadyDeliver(cfg: Config, from: Ordinal, tcq: OrderedQueue<TcBody>)
    returns (out: Option<TcFinal>, ready: bool, applied: Ordinal, ghost taken: seq<Consumed>)
    requires tcq.Valid() && Sorted(tcq.Contents())
    modifies tcq.Repr
    ensures tcq.Valid() && Sorted(tcq.Contents()) && tcq.Repr == old(tcq.Repr)
    ensures Ready(out, ready, applied, tcq.Contents(), taken) == ItrcSpec.ReadyDeliver(cfg, from, old(tcq.Contents()))
    ensures tcq.size <= old(tcq.size) && (ready ==> tcq.size < old(tcq.size))
  {
    hide OrderedQueue.Contents, ItrcSpec.ReadyDeliver;
    out, ready, applied, taken := None, false, from, [];
    ghost var q := tcq.Contents();
    assert Rest(cfg, from, q, None, false, []) == ItrcSpec.ReadyDeliver(cfg, from, q);
    while !ready && tcq.head.next != null && tcq.head.next.body.done && cfg.me in tcq.head.next.body.recvd
          && Consec(applied, tcq.head.next.ord)
      invariant tcq.Valid() && Sorted(tcq.Contents()) && tcq.Repr == old(tcq.Repr) && (out.None? || ready)
      invariant Rest(cfg, applied, tcq.Contents(), out, ready, taken) == ItrcSpec.ReadyDeliver(cfg, from, q)
      invariant tcq.size <= old(tcq.size) && (ready ==> tcq.size < old(tcq.size))
      decreases tcq.size
    {
      assert tcq.head.next == tcq.spine[1];
      RestStep(cfg, applied, tcq.Contents(), taken);
      var s := tcq.PopFront();
      if s.body.skip {
        taken := taken + [Skipped(s.ord)];
      } else {
        out, ready, taken := s.body.tcf, true, taken + [Delivered(s.ord)];
      }
      applied := s.ord;
    }
    if !ready {
      RestStop(cfg, applied, tcq.Contents(), taken);
    }
  }

  // ---- State slots ---------------------------------------------------------------------

  // Only replicas other than this one have reported states.
  predicate Reporters(cfg: Config, q: seq<StSlot>) {
    forall k, i | 0 <= k < |q| && i in q[k].body.states :: cfg.IsReplica(i)
  }

  // Those of the first n replicas that reported this state.
  function ReportingUpTo(states: map<nat, StateXfer>, st: StateXfer, n: nat): set<nat> {
    set i | i in states && 1 <= i <= n && states[i] == st
  }

  lemma ReportingNext(states: map<nat, StateXfer>, st: StateXfer, n: nat)
    requires n > 0
    ensures |ReportingUpTo(states, st, n)| ==
            |ReportingUpTo(states, st, n - 1)| + if n in states && states[n] == st then 1 else 0
  {
    var less := ReportingUpTo(states, st, n - 1);
    assert ReportingUpTo(states, st, n) == if n in states && states[n] == st then less + {n} else less;
  }

  // The count of equal states the source makes before it declares agreement.
  method CountMatches(cfg: Config, states: map<nat, StateXfer>, st: StateXfer) returns (count: nat)
    requires forall i | i in states :: cfg.IsReplica(i)
    ensures count == |Reporting(states, st)|
  {
    count := 0;
    for i := 1 to cfg.NumSm() + 1
      invariant count == |ReportingUpTo(states, st, i - 1)|
    {
      ReportingNext(states, st, i);
      if i in states && states[i] == st {
        count := count + 1;
      }
    }
    assert ReportingUpTo(states, st, cfg.NumSm()) == Reporting(states, st);
  }

  method RecordState(cfg: Config, was: StBody, st: StateXfer, sender: nat) returns (b: StBody, complete: bool)
    requires cfg.IsReplica(sender) && forall i | i in was.states :: cfg.IsReplica(i)
    ensures b == ItrcSpec.RecordState(cfg, was, st, sender) && complete == Completes(cfg, was, b, sender)
  {
    b, complete := was, false;
    if sender == cfg.me {
      b := b.(signaled := true);
    } else {
      if sender in b.states {
        return;
      }
      b := b.(count := b.count + 1, states := b.states[sender := st]);
      if !b.collected && b.count >= cfg.ReqShares() {
        var matches := CountMatches(cfg, b.states, st);
        if matches >= cfg.ReqShares() {
          b := b.(result := Some(sender), collected := true);
        }
      }
    }
    complete := b.collected && b.signaled;
  }

  /** ITRC_Insert_ST_ID: finds or creates the slot, records the state or signal in
      it, and tells whether that completes a transfer. */
  method InsertSt(cfg: Config, recvd: Ordinal, applied: Ordinal, stq: OrderedQueue<StBody>, st: StateXfer, sender: nat)
    returns (complete: bool)
    requires stq.Valid() && Sorted(stq.Contents()) && Reporters(cfg, stq.Contents()) && cfg.IsReplica(sender)
    modifies stq.Repr
    ensures stq.Valid() && Sorted(stq.Contents()) && Reporters(cfg, stq.Contents()) && fresh(stq.Repr - old(stq.Repr))
    ensures (stq.Contents(), complete) == ItrcSpec.InsertSt(cfg, recvd, applied, old(stq.Contents()), st, sender)
  {
    hide ItrcSpec.RecordState, Position, Ensure, Has, OrderedQueue.Contents, Completes, Sorted, Reporters;
    if Compare(st.ord, recvd) < 0 || Compare(st.ord, applied) <= 0 {
      return false;
    }
    ghost var q, k := stq.Contents(), Position(stq.Contents(), st.ord);
    EnsureSorted(q, st.ord, BLANK_ST);
    EnsureReporters(cfg, q, st.ord, k);
    var n := stq.Locate(st.ord, BLANK_ST);
    assert n.body == stq.Contents()[k].body;
    var b;
    b, complete := RecordState(cfg, n.body, st, sender);
    RecordReporters(cfg, stq.Contents(), k, st, sender);
    stq.SetBody(n, k, b);
  }

  lemma EnsureReporters(cfg: Config, q: seq<StSlot>, o: Ordinal, k: nat)
    requires Reporters(cfg, q) && Sorted(q) && k == Position(q, o)
    ensures Reporters(cfg, Ensure(q, o, BLANK_ST))
    ensures forall i | i in Ensure(q, o, BLANK_ST)[k].body.states :: cfg.IsReplica(i)
  {
    EnsureSorted(q, o, BLANK_ST);
  }

  lemma RecordReporters(cfg: Config, q: seq<StSlot>, k: nat, st: StateXfer, sender: nat)
    requires Reporters(cfg, q) && Sorted(q) && k < |q| && cfg.IsReplica(sender)
    ensures var r := Slots.SetBody(q, k, ItrcSpec.RecordState(cfg, q[k].body, st, sender));
            Reporters(cfg, r) && Sorted(r)
  {
  }
}
