/** What the grid's statuses mean in terms of closed switches and working
    transformers alone. */
module GridLaws {
  import opened Packets
  import opened Grid

  // Some line with both switches closed leads from `a` to `b`: from its source, or
  // backwards from a destination that may use it so.
  predicate Joined(topo: Topology, sw: seq<byte>, a: nat, b: nat)
    requires topo.Valid() && |sw| == |topo.swIds| && a < |topo.subs|
  {
    exists l | 0 <= l < |topo.lines| ::
      && sw[topo.lines[l].srcSw] == 1 && sw[topo.lines[l].destSw] == 1
      && ((topo.lines[l].srcSub == a && topo.lines[l].destSub == b)
          || (topo.lines[l].destSub == a && topo.lines[l].srcSub == b && l in topo.subs[a].inLines))
  }

  // From substation 0 to `b`, over joined substations whose transformers work.
  ghost predicate Route(topo: Topology, sw: seq<byte>, tx: seq<byte>, p: seq<nat>, b: nat)
    requires topo.Valid() && topo.Fits(sw, tx)
  {
    && p != [] && p[0] == 0 && p[|p| - 1] == b
    && forall k | 0 <= k < |p| - 1 :: p[k] < |tx| && tx[p[k]] != 0 && Joined(topo, sw, p[k], p[k + 1])
  }

  lemma StepIsJoined(topo: Topology, sw: seq<byte>, tx: seq<byte>, a: nat, b: nat)
    requires topo.Valid() && topo.Fits(sw, tx)
    ensures topo.Step(sw, tx, a, b) <==> a < |tx| && tx[a] != 0 && Joined(topo, sw, a, b)
  {
    if a < |topo.subs| {
      assert topo.ValidSub(a);
      forall l | 0 <= l < |topo.lines|
        ensures topo.Feeds(sw, a, l, b) <==>
                  && sw[topo.lines[l].srcSw] == 1 && sw[topo.lines[l].destSw] == 1
                  && ((topo.lines[l].srcSub == a && topo.lines[l].destSub == b)
                      || (topo.lines[l].destSub == a && topo.lines[l].srcSub == b && l in topo.subs[a].inLines))
      {
        assert topo.ValidLine(topo.lines[l]) && l in topo.subs[topo.lines[l].srcSub].outLines;
      }
      if topo.Step(sw, tx, a, b) {
        var l :| 0 <= l < |topo.lines| && topo.Feeds(sw, a, l, b);
      }
      if Joined(topo, sw, a, b) {
        var l :| 0 <= l < |topo.lines| && sw[topo.lines[l].srcSw] == 1 && sw[topo.lines[l].destSw] == 1
                 && ((topo.lines[l].srcSub == a && topo.lines[l].destSub == b)
                     || (topo.lines[l].destSub == a && topo.lines[l].srcSub == b && l in topo.subs[a].inLines));
        assert topo.Feeds(sw, a, l, b);
      }
    }
  }

  /** A substation has power exactly when such a route leads to it. */
  lemma PoweredExactly(topo: Topology, sw: seq<byte>, tx: seq<byte>, b: nat)
    requires topo.Valid() && topo.Fits(sw, tx)
    ensures topo.Powered(sw, tx, b) <==> exists p :: Route(topo, sw, tx, p, b)
  {
    hide Topology.Valid, Topology.Step, Joined;
    forall p: seq<nat> ensures Route(topo, sw, tx, p, b) <==> topo.Path(sw, tx, p, b) {
      RouteIsPath(topo, sw, tx, p, b);
    }
  }

  lemma RouteIsPath(topo: Topology, sw: seq<byte>, tx: seq<byte>, p: seq<nat>, b: nat)
    requires topo.Valid() && topo.Fits(sw, tx)
    ensures Route(topo, sw, tx, p, b) <==> topo.Path(sw, tx, p, b)
  {
    hide Topology.Valid, Topology.Step, Joined;
    if topo.Path(sw, tx, p, b) {
      forall k | 0 <= k < |p| - 1 ensures p[k] < |tx| && tx[p[k]] != 0 && Joined(topo, sw, p[k], p[k + 1]) {
        StepIsJoined(topo, sw, tx, p[k], p[k + 1]);
      }
    }
    if Route(topo, sw, tx, p, b) {
      forall k | 0 <= k < |p| - 1 ensures topo.Step(sw, tx, p[k], p[k + 1]) {
        StepIsJoined(topo, sw, tx, p[k], p[k + 1]);
      }
    }
  }

  // Nothing that was closed or working is lost.
  predicate AtLeast(sw: seq<byte>, tx: seq<byte>, sw': seq<byte>, tx': seq<byte>) {
    && |sw| == |sw'| && |tx| == |tx'|
    && (forall w | 0 <= w < |sw| && sw[w] == 1 :: sw'[w] == 1)
    && (forall i | 0 <= i < |tx| && tx[i] != 0 :: tx'[i] != 0)
  }

  /** Closing switches and repairing transformers never takes power away. */
  lemma PowerGrows(topo: Topology, sw: seq<byte>, tx: seq<byte>, sw': seq<byte>, tx': seq<byte>, b: nat)
    requires topo.Valid() && topo.Fits(sw, tx) && AtLeast(sw, tx, sw', tx') && topo.Powered(sw, tx, b)
    ensures topo.Powered(sw', tx', b)
  {
    PoweredExactly(topo, sw, tx, b);
    PoweredExactly(topo, sw', tx', b);
    var p :| Route(topo, sw, tx, p, b);
    assert Route(topo, sw', tx', p, b);
  }

  // The substation has power and passes it on.
  ghost predicate Lit(topo: Topology, sw: seq<byte>, tx: seq<byte>, a: nat)
    requires topo.Valid() && topo.Fits(sw, tx)
  {
    a < |tx| && tx[a] != 0 && exists p :: Route(topo, sw, tx, p, a)
  }

  lemma EnergizedExactly(topo: Topology, sw: seq<byte>, tx: seq<byte>, l: nat)
    requires topo.Valid() && topo.Fits(sw, tx) && l < |topo.lines| && topo.ValidLine(topo.lines[l])
    ensures topo.Energized(sw, tx, l) <==>
              && sw[topo.lines[l].srcSw] == 1 && sw[topo.lines[l].destSw] == 1
              && (Lit(topo, sw, tx, topo.lines[l].srcSub)
                  || (l in topo.subs[topo.lines[l].destSub].inLines && Lit(topo, sw, tx, topo.lines[l].destSub)))
  {
    hide Route, Topology.Path;
    var line := topo.lines[l];
    PoweredExactly(topo, sw, tx, line.srcSub);
    PoweredExactly(topo, sw, tx, line.destSub);
    assert l in topo.subs[line.srcSub].outLines;
    forall a | 0 <= a < |topo.subs| && l in topo.subs[a].outLines ensures a == line.srcSub {
      assert topo.ValidSub(a);
    }
    forall a | 0 <= a < |topo.subs| && l in topo.subs[a].inLines ensures a == line.destSub {
      assert topo.ValidSub(a);
    }
  }

  /** What operators see, with distinct identifiers: switches and transformers as
      they are, 1 for a substation with power, 2 for a line whose source switch is
      tripped, and otherwise 1 for a line with both switches closed at a substation
      that passes power on. */
  lemma ShownExactly(topo: Topology, sw: seq<byte>, tx: seq<byte>)
    requires topo.Valid() && topo.Fits(sw, tx) && DistinctIds(topo)
    ensures var stat := topo.StatOf(sw, tx);
            && (forall w | 0 <= w < |sw| :: stat[topo.swIds[w]] == sw[w])
            && (forall i | 0 <= i < |tx| :: stat[topo.txIds[i]] == tx[i])
            && (forall i | 0 <= i < |topo.subs| ::
                  stat[topo.subs[i].id] == if exists p :: Route(topo, sw, tx, p, i) then 1 else 0)
            && (forall l | 0 <= l < |topo.lines| :: topo.ValidLine(topo.lines[l]) && stat[topo.lines[l].id] ==
                  if sw[topo.lines[l].srcSw] == 2 then 2
                  else if sw[topo.lines[l].srcSw] == 1 && sw[topo.lines[l].destSw] == 1
                          && (Lit(topo, sw, tx, topo.lines[l].srcSub)
                              || (l in topo.subs[topo.lines[l].destSub].inLines
                                  && Lit(topo, sw, tx, topo.lines[l].destSub)))
                  then 1 else 0)
  {
    hide Route, Topology.Path, Topology.StatOf, Topology.Powered, Topology.Energized, Lit;
    StatShowsDevices(topo, sw, tx);
    forall i | 0 <= i < |topo.subs| ensures topo.Powered(sw, tx, i) <==> exists p :: Route(topo, sw, tx, p, i) {
      PoweredExactly(topo, sw, tx, i);
    }
    forall l | 0 <= l < |topo.lines|
      ensures topo.ValidLine(topo.lines[l])
      ensures topo.Energized(sw, tx, l) <==>
                && sw[topo.lines[l].srcSw] == 1 && sw[topo.lines[l].destSw] == 1
                && (Lit(topo, sw, tx, topo.lines[l].srcSub)
                    || (l in topo.subs[topo.lines[l].destSub].inLines && Lit(topo, sw, tx, topo.lines[l].destSub)))
    {
      EnergizedExactly(topo, sw, tx, l);
    }
  }

  // The last place at which an identifier stands.
  predicate LastAt(ids: seq<nat>, e: nat, i: nat) {
    i < |ids| && ids[i] == e && forall k | i < k < |ids| :: ids[k] != e
  }

  /** Where devices share an identifier, a transformer is shown before a substation,
      that before a line and a line before a switch; of one kind the last is, and
      an entry of no device stays 1. */
  lemma SharedExactly(topo: Topology, sw: seq<byte>, tx: seq<byte>, e: nat, i: nat)
    requires topo.Valid() && topo.Fits(sw, tx) && e < topo.statLen
    ensures var shown := topo.StatOf(sw, tx)[e];
            var lines, subs := seq(|topo.lines|, l requires 0 <= l < |topo.lines| => topo.lines[l].id), topo.SubIds();
            if e in topo.txIds then LastAt(topo.txIds, e, i) ==> shown == tx[i]
            else if e in subs then LastAt(subs, e, i) ==> shown == topo.SubStatus(sw, tx, i)
            else if e in lines then LastAt(lines, e, i) ==> shown == topo.LineStatus(sw, tx, i)
            else if e in topo.swIds then LastAt(topo.swIds, e, i) ==> shown == sw[i]
            else shown == 1
  {
    var ls, ss := topo.LineStatuses(sw, tx), topo.SubStatuses(sw, tx);
    var s0 := Ones(topo.statLen);
    var s1 := WriteAll(s0, topo.swIds, sw);
    var s2 := WriteAll(s1, topo.LineIds(), ls);
    var s3 := WriteAll(s2, topo.SubIds(), ss);
    WriteAllAt(s0, topo.swIds, sw, e);
    WriteAllAt(s1, topo.LineIds(), ls, e);
    WriteAllAt(s2, topo.SubIds(), ss, e);
    WriteAllAt(s3, topo.txIds, tx, e);
    var lines := seq(|topo.lines|, l requires 0 <= l < |topo.lines| => topo.lines[l].id);
    assert lines == topo.LineIds();
  }
}
