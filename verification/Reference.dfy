/** The reference execution: one SCADA master that applies the whole ordered
    log, and what it answers at each ordinal. */
module Reference {
  import opened Ordinals
  import opened Packets
  import opened Grid
  import opened StateCodec
  import opened ScadaSpec

  // The fixed data of a deployment: its size, its Byzantine replicas, its grid
  // and the stream Prime orders.  `tot` gives each batch's event total.
  datatype World = World(f: nat, k: nat, byz: set<nat>, cc: set<nat>, topo: Topology, log: seq<PrimeMsg>,
                         tot: nat -> nat) {
    function Cfg(r: nat): Config { Config(r, f, k, r in cc) }
    function NumSm(): nat { 3 * f + 2 * k + 1 }
    predicate IsReplica(r: int) { 1 <= r <= NumSm() }
    predicate Correct(r: int) { IsReplica(r) && r !in byz }
  }

  // Ordinal of the n-th entry; entry 0 is the start.
  function OrdAt(log: seq<PrimeMsg>, n: nat): Ordinal
    requires n <= |log|
  {
    if n == 0 then ZERO else log[n - 1].ord
  }

  // Prime's stream is a gap-free chain of proper ordinals, carries no system
  // reset, and names real replicas as targets of state transfers.
  predicate LogValid(w: World) {
    forall i | 0 <= i < |w.log| :: ValidEntry(w, i)
  }

  predicate ValidEntry(w: World, i: nat)
    requires i < |w.log|
  {
    && Proper(w.tot, w.log[i].ord) && Consec(OrdAt(w.log, i), w.log[i].ord)
    && !w.log[i].update.SystemReset?
    && (w.log[i].update.StateTransfer? ==> 1 <= w.log[i].update.machine)
  }

  predicate Executes(p: Progress, u: Update) {
    u.FromClient() && ValidClient(u) && PairLess(p[u.Client()], u.seqp)
  }

  datatype Ref = Ref(progress: Progress, sm: Sm)

  // After the first n entries of the log.
  ghost function RefAt(w: World, n: nat): (r: Ref)
    requires Deployable(w.topo) && n <= |w.log|
    ensures SmValid(w.topo, r.sm)
  {
    if n == 0 then Ref(NoProgress(), InitialSm(w.topo))
    else
      var r, u := RefAt(w, n - 1), w.log[n - 1].update;
      if !Executes(r.progress, u) then r
      else Ref(r.progress[u.Client() := u.seqp], OnUpdate(w.topo, r.sm, u).0)
  }

  ghost predicate ExecutedAt(w: World, i: nat)
    requires Deployable(w.topo)
  {
    i < |w.log| && Executes(RefAt(w, i).progress, w.log[i].update)
  }

  ghost function PayloadAt(w: World, i: nat): Option<Payload>
    requires Deployable(w.topo) && ExecutedAt(w, i)
  {
    OnUpdate(w.topo, RefAt(w, i).sm, w.log[i].update).1
  }

  // Every executed update is answered.  The source leaves some HMI commands
  // unanswered, so this is a hypothesis on the log.
  ghost predicate Answered(w: World)
    requires Deployable(w.topo)
  {
    forall i | 0 <= i < |w.log| && ExecutedAt(w, i) :: PayloadAt(w, i).Some?
  }

  ghost predicate WorldValid(w: World) {
    && Deployable(w.topo) && LogValid(w) && Answered(w) && |w.byz| <= w.f
  }

  // ---- The log's order ------------------------------------------------------------

  lemma {:induction false} LogIncreases(w: World, i: nat, j: nat)
    requires LogValid(w) && i < j <= |w.log|
    ensures Less(OrdAt(w.log, i), OrdAt(w.log, j))
    decreases j
  {
    assert ValidEntry(w, j - 1);
    if i < j - 1 {
      LogIncreases(w, i, j - 1);
    }
  }

  lemma OrdAtInjective(w: World, i: nat, j: nat)
    requires LogValid(w) && i <= |w.log| && j <= |w.log| && Same(OrdAt(w.log, i), OrdAt(w.log, j))
    ensures i == j
  {
    if i < j {
      LogIncreases(w, i, j);
    } else if j < i {
      LogIncreases(w, j, i);
    }
  }

  /** The only entry consecutive to the n-th is the next one. */
  lemma ConsecIsNext(w: World, n: nat, i: nat)
    requires LogValid(w) && n <= |w.log| && i < |w.log| && Consec(OrdAt(w.log, n), w.log[i].ord)
    ensures i == n
  {
    if i < n {
      if i + 1 < n {
        LogIncreases(w, i + 1, n);
      }
    } else if i > n {
      LogIncreases(w, n, n + 1);
      LogIncreases(w, n + 1, i + 1);
      assert ValidEntry(w, n) && ValidEntry(w, i);
      if n > 0 {
        assert ValidEntry(w, n - 1);
      }
      ConsecIsAdjacent(w.tot, OrdAt(w.log, n), w.log[n].ord, w.log[i].ord);
    }
  }

  // ---- What the reference shows operators ----------------------------------------------

  // An update that runs process() is executed among the first n entries.
  ghost predicate ProcessedBefore(w: World, n: nat)
    requires Deployable(w.topo)
  {
    exists i :: 0 <= i < n && ExecutedAt(w, i) && Processes(w.topo, w.log[i].update)
  }

  /** What the reference shows is what processing computes from the first executed
      update naming a substation on, and before it only if the grid starts so. */
  lemma {:induction false} RefSettledExactly(w: World, n: nat)
    requires Deployable(w.topo) && n <= |w.log|
    ensures Settled(w.topo, RefAt(w, n).sm) <==> PoweredAtStart(w.topo) || ProcessedBefore(w, n)
    ensures !ProcessedBefore(w, n) ==> Untouched(w, RefAt(w, n).sm)
  {
    hide OnUpdate, Process, SmValid, Deployable, Processes, Executes;
    if n > 0 {
      RefSettledExactly(w, n - 1);
      SettlesOrKeeps(w.topo, RefAt(w, n - 1).sm, w.log[n - 1].update);
      if ExecutedAt(w, n - 1) && Processes(w.topo, w.log[n - 1].update) {
        assert ProcessedBefore(w, n);
      } else {
        assert ProcessedBefore(w, n) == ProcessedBefore(w, n - 1);
      }
    }
  }

  // As at start-up, but for PNNL and EMS data.
  predicate Untouched(w: World, sm: Sm)
    requires Deployable(w.topo)
  {
    var init := InitialSm(w.topo);
    sm.sw == init.sw && sm.tx == init.tx && sm.stat == init.stat
  }

  lemma SettlesOrKeeps(topo: Topology, sm: Sm, u: Update)
    requires SmValid(topo, sm)
    ensures var r := OnUpdate(topo, sm, u).0;
            if Processes(topo, u) then Settled(topo, r)
            else r.sw == sm.sw && r.tx == sm.tx && r.stat == sm.stat && Settled(topo, r) == Settled(topo, sm)
  {
    hide SmValid, Topology.Valid;
    if Processes(topo, u) {
      OnUpdateNear(topo, sm, sm, u);
    }
  }

  lemma {:induction false} ProgressGrows(w: World, i: nat, j: nat, c: ClientIndex)
    requires Deployable(w.topo) && i <= j <= |w.log|
    ensures PairLessEq(RefAt(w, i).progress[c], RefAt(w, j).progress[c])
    decreases j
  {
    if i < j {
      ProgressGrows(w, i, j - 1, c);
    }
  }

  /** Of one client, later executed updates carry larger sequence pairs. */
  lemma ExecutedIncreases(w: World, i: nat, j: nat)
    requires Deployable(w.topo) && i < j && ExecutedAt(w, i) && ExecutedAt(w, j)
    requires w.log[i].update.Client() == w.log[j].update.Client()
    ensures PairLess(w.log[i].update.seqp, w.log[j].update.seqp)
  {
    ProgressGrows(w, i + 1, j, w.log[i].update.Client());
  }

  // ---- Truth ---------------------------------------------------------------------------

  // The i-th entry is executed and answered with `p`.
  ghost predicate AnsweredAt(w: World, i: nat, p: Payload)
    requires Deployable(w.topo) && i < |w.log|
  {
    ExecutedAt(w, i) && PayloadAt(w, i) == Some(p)
  }

  // The reference answers `p` at ordinal `o`.
  ghost predicate TruePayload(w: World, o: Ordinal, p: Payload)
    requires Deployable(w.topo)
  {
    exists i :: 0 <= i < |w.log| && w.log[i].ord == o && AnsweredAt(w, i, p)
  }

  // The i-th entry is executed, and `p` is the reference's answer to it or what
  // that would be after processing.
  ghost predicate AllowedAt(w: World, i: nat, p: Payload)
    requires Deployable(w.topo) && i < |w.log|
  {
    && ExecutedAt(w, i)
    && (PayloadAt(w, i) == Some(p) || OnUpdate(w.topo, Process(w.topo, RefAt(w, i).sm), w.log[i].update).1 == Some(p))
  }

  ghost predicate AllowedPayload(w: World, o: Ordinal, p: Payload)
    requires Deployable(w.topo)
  {
    exists i :: 0 <= i < |w.log| && w.log[i].ord == o && AllowedAt(w, i, p)
  }

  // The i-th entry does not make masters show a status array that was never processed.
  ghost predicate FixedAt(w: World, i: nat)
    requires Deployable(w.topo) && i < |w.log|
  {
    ExecutedAt(w, i) && ShowsOnly(w.topo, w.log[i].update) ==> PoweredAtStart(w.topo) || ProcessedBefore(w, i)
  }

  ghost predicate FixedOrd(w: World, o: Ordinal)
    requires Deployable(w.topo)
  {
    forall i | 0 <= i < |w.log| && w.log[i].ord == o :: FixedAt(w, i)
  }

  /** An executed update has one allowed answer exactly when it does not show a
      status array that was never processed. */
  lemma OneAnswerExactly(w: World, i: nat)
    requires Deployable(w.topo) && Answered(w) && ExecutedAt(w, i)
    ensures (forall p | AllowedAt(w, i, p) :: AnsweredAt(w, i, p)) <==> FixedAt(w, i)
  {
    var b, u := RefAt(w, i).sm, w.log[i].update;
    var a := Process(w.topo, b);
    RefSettledExactly(w, i);
    ProcessNear(w.topo, b);
    if FixedAt(w, i) {
      NearAnswersAlike(w.topo, a, b, u);
    } else {
      var p := OnUpdate(w.topo, a, u).1.value;
      assert AllowedAt(w, i, p) && p.view == Bytes(a.stat);
      assert PayloadAt(w, i).value.view == Bytes(b.stat);
    }
  }

  lemma AllowedOrdinal(w: World, o: Ordinal, p: Payload, o': Ordinal, p': Payload)
    requires Deployable(w.topo) && LogValid(w) && AllowedPayload(w, o, p) && AllowedPayload(w, o', p') && Same(o, o')
    ensures o == o'
  {
    var i :| 0 <= i < |w.log| && w.log[i].ord == o && AllowedAt(w, i, p);
    var j :| 0 <= j < |w.log| && w.log[j].ord == o' && AllowedAt(w, j, p');
    EntryUnique(w, i, j);
  }

  lemma AllowedIsTrue(w: World, o: Ordinal, p: Payload)
    requires Deployable(w.topo) && Answered(w) && AllowedPayload(w, o, p) && FixedOrd(w, o)
    ensures TruePayload(w, o, p)
  {
    var i :| 0 <= i < |w.log| && w.log[i].ord == o && AllowedAt(w, i, p);
    OneAnswerExactly(w, i);
    assert AnsweredAt(w, i, p);
  }

  /** No entry is an exception on a grid that starts as processing would show it,
      nor where field data cannot name a substation that does not exist. */
  lemma AlwaysFixed(w: World, i: nat)
    requires Deployable(w.topo) && i < |w.log| && (PoweredAtStart(w.topo) || |w.topo.subs| >= NUM_RTU)
    ensures FixedAt(w, i)
  {
  }

  // The state the reference would send at the i-th entry to the replica named there.
  ghost predicate XferAt(w: World, i: nat, x: StateXfer)
    requires Deployable(w.topo) && i < |w.log|
  {
    && x.ord == w.log[i].ord && w.log[i].update == StateTransfer(x.target)
    && x.latest == RefAt(w, i).progress
    && x.numClients == |w.topo.subs| + 1
    && x.state == Pack(w.topo, RefAt(w, i).sm.sw, RefAt(w, i).sm.tx, RefAt(w, i).sm.pnnl)
  }

  ghost predicate TrueXfer(w: World, x: StateXfer)
    requires Deployable(w.topo)
  {
    exists i :: 0 <= i < |w.log| && XferAt(w, i, x)
  }

  lemma EntryUnique(w: World, i: nat, j: nat)
    requires LogValid(w) && i < |w.log| && j < |w.log| && Same(w.log[i].ord, w.log[j].ord)
    ensures i == j
  {
    OrdAtInjective(w, i + 1, j + 1);
  }

  lemma AnsweredOnce(w: World, i: nat, p: Payload, p': Payload)
    requires Deployable(w.topo) && i < |w.log| && AnsweredAt(w, i, p) && AnsweredAt(w, i, p')
    ensures p == p'
  {
    assert Some(p) == Some(p');
  }

  /** At one ordinal there is at most one true payload. */
  lemma TruePayloadUnique(w: World, o: Ordinal, p: Payload, o': Ordinal, p': Payload)
    requires Deployable(w.topo) && LogValid(w) && TruePayload(w, o, p) && TruePayload(w, o', p') && Same(o, o')
    ensures o == o' && p == p'
  {
    var i :| 0 <= i < |w.log| && w.log[i].ord == o && AnsweredAt(w, i, p);
    var j :| 0 <= j < |w.log| && w.log[j].ord == o' && AnsweredAt(w, j, p');
    EntryUnique(w, i, j);
    AnsweredOnce(w, i, p, p');
  }
}
