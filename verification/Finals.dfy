/** When a final comes out of the collected shares, which one it is, and that it
    goes out. */
module Finals {
  import opened Ordinals
  import opened Packets
  import opened Slots
  import opened ItrcSpec
  import opened TcInvariants
  import opened ReplicaInvariants

  // The replicas whose share in the slot is on exactly this ordinal.
  ghost function Holders(cfg: Config, b: TcBody, o: Ordinal): (r: set<nat>)
    ensures r <= b.shares.Keys && r <= b.recvd
  {
    set i | i in b.shares && i in b.recvd && cfg.IsReplica(i) && b.shares[i].ord == o
  }

  // What the signature is when it covers exactly these replicas.
  ghost function Covering(hs: set<nat>, o: Ordinal, p: Payload): ThreshSig {
    map i | i in hs :: Genuine(i, o, p)
  }

  // At least f + 1 replicas hold a share on this very ordinal, all of these shares
  // are genuine for the final's payload, which the lowest-numbered holder sent
  // along, and the signature covers exactly the holders.
  ghost predicate FinalOf(cfg: Config, b: TcBody, o: Ordinal, fin: TcFinal) {
    var hs := Holders(cfg, b, o);
    && |hs| >= cfg.f + 1 && fin.ord == o
    && fin.sig == Covering(hs, o, fin.payload)
    && (forall i | i in hs :: b.shares[i].sig == Genuine(i, o, fin.payload))
    && (forall i | i in hs && (forall j | j in hs :: i <= j) :: b.shares[i].payload == fin.payload)
  }

  lemma {:induction false} MatchingAreHolders(b: TcBody, o: Ordinal, n: nat)
    ensures var idxs := Matching(b, o, n);
            && (forall i :: i in idxs <==> 1 <= i <= n && i in b.recvd && i in b.shares && b.shares[i].ord == o)
            && (forall j, k | 0 <= j < k < |idxs| :: idxs[j] < idxs[k])
            && (forall j | 0 <= j < |idxs| :: idxs[j] <= n)
  {
    if n > 0 {
      MatchingAreHolders(b, o, n - 1);
    }
  }

  lemma {:induction false} AscendingSize(idxs: seq<nat>, hs: set<nat>)
    requires forall j, k | 0 <= j < k < |idxs| :: idxs[j] < idxs[k]
    requires forall i :: i in idxs <==> i in hs
    ensures |idxs| == |hs|
    decreases |idxs|
  {
    if idxs == [] {
      assert hs == {};
    } else {
      var n := |idxs| - 1;
      assert idxs[n] in hs;
      forall i ensures i in idxs[..n] <==> i in hs - {idxs[n]} {
      }
      AscendingSize(idxs[..n], hs - {idxs[n]});
    }
  }

  ghost function Signatures(b: TcBody, hs: set<nat>): ThreshSig
    requires hs <= b.shares.Keys
  {
    map i | i in hs :: b.shares[i].sig
  }

  // The final that would be tried: the lowest holder's payload, all holders' signatures.
  lemma ConstructTries(cfg: Config, o: Ordinal, b: TcBody, least: nat)
    requires b.count == |b.recvd|
    requires var hs := Holders(cfg, b, o); hs != {} ==> least in hs && forall j | j in hs :: least <= j
    ensures var hs := Holders(cfg, b, o);
            ConstructFinal(cfg, o, b) ==
            if |hs| < cfg.f + 1 then None
            else
              var fin := TcFinal(o, b.shares[least].payload, Signatures(b, hs));
              if VerifyThresh(cfg.f, fin) then Some(fin) else None
  {
    hide Matching, VerifyThresh;
    var idxs, hs := Matching(b, o, cfg.NumSm()), Holders(cfg, b, o);
    MatchingAreHolders(b, o, cfg.NumSm());
    MatchingStored(b, o, cfg.NumSm());
    AscendingSize(idxs, hs);
    HoldersBounded(b.recvd, hs);
    if idxs != [] {
      assert idxs[0] in hs && idxs[0] == least;
      CombinedSignature(b, idxs, hs);
    }
  }

  lemma CombinedSignature(b: TcBody, idxs: seq<nat>, hs: set<nat>)
    requires hs <= b.shares.Keys && forall i :: i in idxs <==> i in hs
    ensures (forall j | 0 <= j < |idxs| :: idxs[j] in b.shares)
    ensures Combine(b, idxs) == Signatures(b, hs)
  {
    forall j | 0 <= j < |idxs| ensures idxs[j] in b.shares {
      assert idxs[j] in idxs;
    }
  }

  lemma LeastOf(hs: set<nat>) returns (least: nat)
    requires hs != {}
    ensures least in hs && forall j | j in hs :: least <= j
    decreases |hs|
  {
    least :| least in hs;
    var rest := hs - {least};
    if rest != {} {
      var l := LeastOf(rest);
      var m := least;
      least := if l < m then l else m;
      forall j | j in hs ensures least <= j {
        assert j == m || j in rest;
      }
    }
  }

  /** A final comes out exactly when f + 1 replicas hold a share on exactly this
      ordinal and all shares on it are genuine for one payload; it carries that
      payload, and its signature covers exactly these replicas. */
  lemma FinalExactly(cfg: Config, o: Ordinal, b: TcBody, fin: TcFinal)
    requires b.count == |b.recvd|
    ensures ConstructFinal(cfg, o, b) == Some(fin) <==> FinalOf(cfg, b, o, fin)
  {
    hide ConstructFinal, Holders, VerifyThresh, Signatures, Covering;
    var hs := Holders(cfg, b, o);
    if |hs| >= cfg.f + 1 {
      var least := LeastOf(hs);
      ConstructTries(cfg, o, b, least);
      TriedIsFinal(cfg, o, b, least, fin);
    } else if hs != {} {
      var least := LeastOf(hs);
      ConstructTries(cfg, o, b, least);
    } else {
      ConstructTries(cfg, o, b, 0);
    }
  }

  lemma TriedIsFinal(cfg: Config, o: Ordinal, b: TcBody, least: nat, fin: TcFinal)
    requires least in Holders(cfg, b, o) && forall j | j in Holders(cfg, b, o) :: least <= j
    requires |Holders(cfg, b, o)| >= cfg.f + 1
    ensures var tried := TcFinal(o, b.shares[least].payload, Signatures(b, Holders(cfg, b, o)));
            VerifyThresh(cfg.f, tried) && fin == tried <==> FinalOf(cfg, b, o, fin)
  {
    hide Holders;
    var hs, p := Holders(cfg, b, o), b.shares[least].payload;
    assert Signatures(b, hs).Keys == hs;
    assert |Signatures(b, hs)| == |hs|;
    if VerifyThresh(cfg.f, TcFinal(o, p, Signatures(b, hs))) {
      assert Signatures(b, hs) == Covering(hs, o, p);
    }
    if FinalOf(cfg, b, o, fin) {
      assert fin.payload == p;
      assert Signatures(b, hs) == Covering(hs, o, p);
    }
  }

  lemma HoldersBounded(recvd: set<nat>, hs: set<nat>)
    requires hs <= recvd
    ensures |hs| <= |recvd|
  {
    var rest := recvd - hs;
    assert recvd == hs + rest;
  }

  // ---- One slot ------------------------------------------------------------------

  /** A new share is stored, and finishes the slot exactly when the replica's own
      share and f + 1 in all are there.  Then the slot holds the one final these
      shares make, and is skipped exactly when they make none. */
  lemma ShareExactly(cfg: Config, b: TcBody, sh: ShareMsg, sender: nat)
    requires b.count == |b.recvd| && !b.done && sender !in b.recvd && (cfg.me in b.recvd ==> b.count < cfg.f + 1)
    requires b.tcf.None? && !b.skip
    ensures var r := RecordShare(cfg, b, sh, sender, false);
            && r.recvd == b.recvd + {sender} && r.shares == b.shares[sender := sh] && r.count == |r.recvd|
            && (r.done <==> cfg.me in r.recvd && |r.recvd| >= cfg.f + 1)
            && (r.done ==> (r.skip <==> forall fin :: !FinalOf(cfg, r, sh.ord, fin)))
            && (forall fin | r.done :: r.tcf == Some(fin) <==> FinalOf(cfg, r, sh.ord, fin))
            && (!r.done ==> r.tcf.None? && !r.skip)
  {
    hide ConstructFinal, FinalOf;
    var r := RecordShare(cfg, b, sh, sender, false);
    assert |b.recvd + {sender}| == |b.recvd| + 1;
    var stored := b.(recvd := b.recvd + {sender}, count := b.count + 1, shares := b.shares[sender := sh]);
    forall fin ensures FinalOf(cfg, r, sh.ord, fin) <==> ConstructFinal(cfg, sh.ord, stored) == Some(fin) {
      FinalExactly(cfg, sh.ord, stored, fin);
      SameShares(cfg, stored, r, sh.ord, fin);
    }
  }

  lemma SameShares(cfg: Config, b: TcBody, b': TcBody, o: Ordinal, fin: TcFinal)
    requires b.recvd == b'.recvd && b.shares == b'.shares
    ensures FinalOf(cfg, b, o, fin) == FinalOf(cfg, b', o, fin)
  {
    assert Holders(cfg, b, o) == Holders(cfg, b', o);
  }

  /** A finished slot and a sender heard before are left alone, and an empty slot
      of its own finishes at once with nothing to deliver. */
  lemma OtherShares(cfg: Config, b: TcBody, sh: ShareMsg, sender: nat, skip: bool)
    ensures var r := RecordShare(cfg, b, sh, sender, skip);
            && (b.done || sender in b.recvd ==> r == b)
            && (!b.done && sender !in b.recvd && skip ==>
                  r.done && r.skip && r.recvd == b.recvd + {sender} && r.shares == b.shares && r.tcf == b.tcf)
  {
    hide ConstructFinal;
  }

  // Every share in the slot is an honest one for payload `p` on ordinal `o`.
  predicate AllHonest(b: TcBody, o: Ordinal, p: Payload) {
    forall i | i in b.shares :: b.shares[i] == ShareMsg(o, p, Genuine(i, o, p))
  }

  /** With the own share, f others and no bad one, the slot holds the final on
      the shares' ordinal and payload, signed by exactly the senders. */
  lemma HonestSharesMakeFinal(cfg: Config, b: TcBody, o: Ordinal, p: Payload)
    requires b.shares.Keys == b.recvd && (forall i | i in b.recvd :: cfg.IsReplica(i)) && |b.recvd| >= cfg.f + 1
    requires AllHonest(b, o, p)
    ensures FinalOf(cfg, b, o, TcFinal(o, p, Covering(b.recvd, o, p)))
  {
    assert Holders(cfg, b, o) == b.recvd;
  }

  // ---- The queue -----------------------------------------------------------------

  function BodyAt(q: seq<TcSlot>, o: Ordinal): TcBody {
    if Has(q, o) then q[Position(q, o)].body else BLANK_TC
  }

  /** A share for an ordinal not yet applied is recorded in that ordinal's slot,
      an early one in a slot of its own, and touches no other; an older one
      changes nothing. */
  lemma InsertExactly(cfg: Config, applied: Ordinal, q: seq<TcSlot>, sh: ShareMsg, sender: nat, skip: bool, o: Ordinal)
    requires Sorted(q)
    ensures var r := InsertTc(cfg, applied, q, sh, sender, skip);
            && Sorted(r)
            && (!Less(applied, sh.ord) ==> r == q)
            && (Less(applied, sh.ord) ==>
                  BodyAt(r, sh.ord) == RecordShare(cfg, BodyAt(q, sh.ord), sh, sender, skip) && Has(r, sh.ord))
            && (!Same(o, sh.ord) ==> BodyAt(r, o) == BodyAt(q, o) && Has(r, o) == Has(q, o))
  {
    hide RecordShare;
    if Less(applied, sh.ord) {
      EnsureSorted(q, sh.ord, BLANK_TC);
      var q1, k := Ensure(q, sh.ord, BLANK_TC), Position(q, sh.ord);
      var r := InsertTc(cfg, applied, q, sh, sender, skip);
      PositionUnique(r, sh.ord, k);
      if !Same(o, sh.ord) {
        ElsewhereSame(q, r, sh.ord, o, k);
      }
    }
  }

  // Changing or adding the slot of one ordinal leaves the others where they are found.
  lemma ElsewhereSame(q: seq<TcSlot>, r: seq<TcSlot>, at: Ordinal, o: Ordinal, k: nat)
    requires Sorted(q) && Sorted(r) && k == Position(q, at) && k < |r| && Same(r[k].ord, at) && !Same(o, at)
    requires |r| == (if Has(q, at) then |q| else |q| + 1)
    requires forall i | 0 <= i < k :: r[i] == q[i]
    requires forall i | k < i < |r| :: r[i] == q[if Has(q, at) then i else i - 1]
    ensures BodyAt(r, o) == BodyAt(q, o) && Has(r, o) == Has(q, o)
  {
    var j := Position(q, o);
    var j' := if Less(o, at) || Has(q, at) then j else j + 1;
    if Has(q, at) {
      assert Same(q[k].ord, at);
    }
    PositionUnique(r, o, j');
  }

  // ---- Delivery --------------------------------------------------------------------

  // The share is the last one missing at the next ordinal: the replica's own and
  // f others are there with it, and all are honest.
  predicate LastShare(cfg: Config, s: State, sh: ShareMsg, sender: nat) {
    var b := BodyAt(s.tcq, sh.ord);
    && Consec(s.applied, sh.ord) && Position(s.tcq, sh.ord) == 0
    && !b.done && sender !in b.recvd && cfg.me in b.recvd + {sender} && |b.recvd| >= cfg.f
    && AllHonest(b, sh.ord, sh.payload) && sh.sig == Genuine(sender, sh.ord, sh.payload)
  }

  lemma {:induction false} DrainGrows(cfg: Config, s: State)
    ensures s.finals <= Drain(cfg, s).finals && s.lost <= Drain(cfg, s).lost
    decreases |s.tcq|
  {
    var r := ReadyDeliver(cfg, s.applied, s.tcq);
    if r.ready && s.credit > 0 {
      DrainGrows(cfg, SendFinal(AfterPass(cfg, s), r.out));
    }
  }

  /** Each final sent uses up one credit, and one is lost only when none is left,
      which ends the loop. */
  lemma {:induction false} CreditExactly(cfg: Config, bound: Ordinal, s: State)
    requires DrainKeeps(cfg, bound, s)
    ensures var r := Drain(cfg, s);
            && r.credit + |r.finals| == s.credit + |s.finals|
            && (r.lost == s.lost || (r.credit == 0 && |r.lost| == |s.lost| + 1))
    decreases |s.tcq|
  {
    hide TcInv, ConsumedOk, AllVerify, ReadyDeliver;
    ReadyDeliverInv(cfg, s.applied, bound, s.tcq);
    PassInv(cfg, bound, s);
    var r := ReadyDeliver(cfg, s.applied, s.tcq);
    if r.ready {
      SendInv(cfg, bound, AfterPass(cfg, s), r.out);
      if s.credit > 0 {
        CreditExactly(cfg, bound, SendFinal(AfterPass(cfg, s), r.out));
      }
    }
  }

  // A finished front slot goes out first.
  lemma FrontGoesOut(cfg: Config, s: State, fin: TcFinal)
    requires FrontReady(cfg, s.applied, s.tcq) && !s.tcq[0].body.skip && s.tcq[0].body.tcf == Some(fin)
    ensures s.credit > 0 ==> s.finals + [fin] <= Drain(cfg, s).finals
    ensures s.credit == 0 ==> Drain(cfg, s).lost == s.lost + [fin] && Drain(cfg, s).finals == s.finals
  {
    if s.credit > 0 {
      DrainGrows(cfg, SendFinal(AfterPass(cfg, s), Some(fin)));
    }
  }

  // The last honest share makes the final go out at once.
  lemma FinalGoesOut(cfg: Config, s: State, sh: ShareMsg, sender: nat)
    requires ChannelInv(cfg, s, s.recvd) && cfg.cc && cfg.IsReplica(sender) && LastShare(cfg, s, sh, sender)
    ensures var r := InsertAndDrain(cfg, s, sh, sender, false);
            var signers := BodyAt(s.tcq, sh.ord).recvd + {sender};
            var fin := TcFinal(sh.ord, sh.payload, Covering(signers, sh.ord, sh.payload));
            if s.credit > 0 then s.finals + [fin] <= r.finals
            else r.finals == s.finals && r.lost == s.lost + [fin]
  {
    hide ConsumedOk, AllVerify, SignedOk, AllHonest, TcSlotInv, RecordShare, Drain;
    BodyInv(cfg, s.applied, s.recvd, s.tcq, sh.ord);
    SlotFinished(cfg, BodyAt(s.tcq, sh.ord), sh, sender);
    var q := InsertTc(cfg, s.applied, s.tcq, sh, sender, false);
    var signers := BodyAt(s.tcq, sh.ord).recvd + {sender};
    FrontGoesOut(cfg, s.(tcq := q), TcFinal(sh.ord, sh.payload, Covering(signers, sh.ord, sh.payload)));
  }

  lemma SlotFinished(cfg: Config, b: TcBody, sh: ShareMsg, sender: nat)
    requires TcSlotInv(cfg, Slot(sh.ord, b)) && cfg.IsReplica(sender)
    requires !b.done && sender !in b.recvd && cfg.me in b.recvd + {sender} && |b.recvd| >= cfg.f
    requires AllHonest(b, sh.ord, sh.payload) && sh.sig == Genuine(sender, sh.ord, sh.payload)
    ensures var r := RecordShare(cfg, b, sh, sender, false);
            && r.done && !r.skip && cfg.me in r.recvd
            && r.tcf == Some(TcFinal(sh.ord, sh.payload, Covering(b.recvd + {sender}, sh.ord, sh.payload)))
  {
    hide FinalOf, RecordShare;
    ShareExactly(cfg, b, sh, sender);
    var r := RecordShare(cfg, b, sh, sender, false);
    assert |b.recvd + {sender}| == |b.recvd| + 1;
    HonestSharesMakeFinal(cfg, r, sh.ord, sh.payload);
  }

  lemma BodyInv(cfg: Config, applied: Ordinal, bound: Ordinal, q: seq<TcSlot>, o: Ordinal)
    requires TcInv(cfg, applied, bound, q)
    ensures TcSlotInv(cfg, Slot(o, BodyAt(q, o)))
  {
    BlankTcInv(cfg, o);
  }

  // The final these shares make is the first to go out, or is lost with the link.
  ghost predicate GoesOut(s: State, r: State, signers: set<nat>, o: Ordinal, p: Payload) {
    var fin := TcFinal(o, p, Covering(signers, o, p));
    if s.credit > 0 then s.finals + [fin] <= r.finals else r.finals == s.finals && r.lost == s.lost + [fin]
  }

  /** When the last honest share missing at the next ordinal arrives, the final
      goes out at once: the shares' payload, signed by exactly their senders.
      Only a broken link loses it. */
  lemma ArrivalGoesOut(cfg: Config, s: State, sh: ShareMsg, sender: nat)
    requires Inv(cfg, s) && cfg.cc && !s.halted && cfg.IsReplica(sender) && LastShare(cfg, s, sh, sender)
    ensures var signers := BodyAt(s.tcq, sh.ord).recvd + {sender};
            GoesOut(s, Step(cfg, s, ShareArrival(sender, sh)), signers, sh.ord, sh.payload)
  {
    hide InsertAndDrain, LastShare, ChannelInv;
    FinalGoesOut(cfg, s, sh, sender);
  }

  /** So it does when the own master's answer is what is missing. */
  lemma AnswerGoesOut(cfg: Config, s: State, p: Payload)
    requires Inv(cfg, s) && cfg.cc && !s.halted && s.ordq != []
    requires LastShare(cfg, s, ShareMsg(s.ordq[0], p, Genuine(cfg.me, s.ordq[0], p)), cfg.me)
    ensures var o := s.ordq[0];
            GoesOut(s, Step(cfg, s, MasterReply(Scada(p))), BodyAt(s.tcq, o).recvd + {cfg.me}, o, p)
  {
    hide InsertAndDrain, TcInv, ConsumedOk, AllVerify, AllHonest, BodyAt, Position;
    var sh := ShareMsg(s.ordq[0], p, Genuine(cfg.me, s.ordq[0], p));
    var s2 := s.(ordq := s.ordq[1..], shares := s.shares + [sh]);
    assert ChannelInv(cfg, s2, s.recvd);
    FinalGoesOut(cfg, s2, sh, cfg.me);
  }
}
