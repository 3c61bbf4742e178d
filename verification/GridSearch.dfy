/** What the breadth-first search over the grid keeps, and why it ends with
    exactly the powered substations and energized lines. */
module GridSearch {
  import opened Packets
  import opened Grid

  // Marks so far: only powered substations and energized lines are set.
  ghost predicate Sound(topo: Topology, sw: seq<byte>, tx: seq<byte>, sub: seq<byte>, line: seq<byte>)
    requires topo.Valid() && topo.Fits(sw, tx)
  {
    && |sub| == |topo.subs| && |line| == |topo.lines|
    && (forall i | 0 <= i < |sub| :: sub[i] == 0 || (sub[i] == 1 && topo.Powered(sw, tx, i)))
    && (forall l | 0 <= l < |line| :: line[l] == 0 || (line[l] == 1 && topo.Energized(sw, tx, l)))
  }

  predicate NoRepeats(s: seq<nat>) {
    forall i, j | 0 <= i < j < |s| :: s[i] != s[j]
  }

  // The substations ever enqueued, in order; the first `taken` have been expanded.
  // No substation enters twice, and those that entered are those marked.
  predicate Entered(sub: seq<byte>, order: seq<nat>) {
    && NoRepeats(order)
    && (forall k | 0 <= k < |order| :: order[k] < |sub| && sub[order[k]] == 1)
    && (forall i | 0 <= i < |sub| && sub[i] == 1 :: i in order)
  }

  // Everything line `l` feeds from substation `a` is marked.
  predicate Followed(topo: Topology, sw: seq<byte>, sub: seq<byte>, line: seq<byte>, l: nat, b: nat)
    requires topo.Valid() && |sw| == |topo.swIds|
  {
    l < |topo.lines| && l < |line| && b < |sub| && (topo.Live(sw, l) ==> line[l] == 1 && sub[b] == 1)
  }

  predicate OutDone(topo: Topology, sw: seq<byte>, sub: seq<byte>, line: seq<byte>, a: nat, n: nat)
    requires topo.Valid() && |sw| == |topo.swIds| && a < |topo.subs|
  {
    && n <= |topo.subs[a].outLines|
    && forall z | 0 <= z < n ::
         var l := topo.subs[a].outLines[z]; l < |topo.lines| && Followed(topo, sw, sub, line, l, topo.lines[l].destSub)
  }

  predicate InDone(topo: Topology, sw: seq<byte>, sub: seq<byte>, line: seq<byte>, a: nat, n: nat)
    requires topo.Valid() && |sw| == |topo.swIds| && a < |topo.subs|
  {
    && n <= |topo.subs[a].inLines|
    && forall z | 0 <= z < n ::
         var l := topo.subs[a].inLines[z]; l < |topo.lines| && Followed(topo, sw, sub, line, l, topo.lines[l].srcSub)
  }

  predicate Expanded(topo: Topology, sw: seq<byte>, tx: seq<byte>, sub: seq<byte>, line: seq<byte>, a: nat)
    requires topo.Valid() && topo.Fits(sw, tx) && a < |topo.subs|
  {
    tx[a] != 0 ==>
      && OutDone(topo, sw, sub, line, a, |topo.subs[a].outLines|)
      && InDone(topo, sw, sub, line, a, |topo.subs[a].inLines|)
  }

  predicate AllExpanded(topo: Topology, sw: seq<byte>, tx: seq<byte>, sub: seq<byte>, line: seq<byte>,
                        order: seq<nat>, taken: nat)
    requires topo.Valid() && topo.Fits(sw, tx)
  {
    taken <= |order|
    && forall k | 0 <= k < taken :: order[k] < |topo.subs| && Expanded(topo, sw, tx, sub, line, order[k])
  }

  // Marks are only ever added.
  predicate Grows(a: seq<byte>, b: seq<byte>) {
    |a| == |b| && forall i | 0 <= i < |a| && a[i] == 1 :: b[i] == 1
  }

  lemma ExpandedGrows(topo: Topology, sw: seq<byte>, tx: seq<byte>, sub: seq<byte>, line: seq<byte>,
                      sub': seq<byte>, line': seq<byte>, order: seq<nat>, order': seq<nat>, taken: nat)
    requires topo.Valid() && topo.Fits(sw, tx) && AllExpanded(topo, sw, tx, sub, line, order, taken)
    requires Grows(sub, sub') && Grows(line, line') && order <= order'
    ensures AllExpanded(topo, sw, tx, sub', line', order', taken)
  {
    forall k | 0 <= k < taken ensures order'[k] < |topo.subs| && Expanded(topo, sw, tx, sub', line', order'[k]) {
      assert order'[k] == order[k] && Expanded(topo, sw, tx, sub, line, order[k]);
    }
  }

  // The next place after `a` along a live line has power if `a` has.
  lemma PathExtends(topo: Topology, sw: seq<byte>, tx: seq<byte>, a: nat, l: nat, b: nat)
    requires topo.Valid() && topo.Fits(sw, tx) && a < |topo.subs| && l < |topo.lines|
    requires topo.Powered(sw, tx, a) && tx[a] != 0 && topo.Feeds(sw, a, l, b)
    ensures topo.Powered(sw, tx, b) && topo.Energized(sw, tx, l)
  {
    var p :| topo.Path(sw, tx, p, a);
    var q := p + [b];
    forall k | 0 <= k < |q| - 1 ensures topo.Step(sw, tx, q[k], q[k + 1]) {
      if k < |p| - 1 {
        assert topo.Step(sw, tx, p[k], p[k + 1]);
      }
    }
    assert topo.Path(sw, tx, q, b);
  }

  lemma SourcePowered(topo: Topology, sw: seq<byte>, tx: seq<byte>)
    requires topo.Valid() && topo.Fits(sw, tx)
    ensures topo.Powered(sw, tx, 0)
  {
    assert topo.Path(sw, tx, [0], 0);
  }

  lemma DoneGrows(topo: Topology, sw: seq<byte>, sub: seq<byte>, line: seq<byte>, sub': seq<byte>, line': seq<byte>,
                  a: nat, n: nat)
    requires topo.Valid() && |sw| == |topo.swIds| && a < |topo.subs| && Grows(sub, sub') && Grows(line, line')
    ensures OutDone(topo, sw, sub, line, a, n) ==> OutDone(topo, sw, sub', line', a, n)
    ensures InDone(topo, sw, sub, line, a, n) ==> InDone(topo, sw, sub', line', a, n)
  {
    hide Topology.Valid;
  }

  lemma {:induction false} AtMostAll(s: seq<nat>, n: nat)
    requires NoRepeats(s) && forall k | 0 <= k < |s| :: s[k] < n
    ensures |s| <= n
    decreases n
  {
    if s != [] {
      assert s[0] < n;
      if k :| 0 <= k < |s| && s[k] == n - 1 {
        AtMostAll(s[..k] + s[k + 1..], n - 1);
      } else {
        AtMostAll(s, n - 1);
      }
    }
  }

  // Following a live line from an expanded substation keeps the marks right.
  lemma MarkKeeps(topo: Topology, sw: seq<byte>, tx: seq<byte>, sub: seq<byte>, line: seq<byte>, order: seq<nat>,
                  a: nat, l: nat, b: nat)
    requires topo.Valid() && topo.Fits(sw, tx) && Sound(topo, sw, tx, sub, line) && Entered(sub, order)
    requires a < |topo.subs| && l < |topo.lines| && b < |topo.subs|
    requires topo.Powered(sw, tx, a) && tx[a] != 0 && topo.Feeds(sw, a, l, b)
    ensures var sub', line' := sub[b := 1], line[l := 1];
            && Sound(topo, sw, tx, sub', line') && Grows(sub, sub') && Grows(line, line')
            && Entered(sub', if sub[b] == 0 then order + [b] else order)
            && Followed(topo, sw, sub', line', l, b)
  {
    hide Topology.Feeds, Topology.Valid;
    PathExtends(topo, sw, tx, a, l, b);
  }

  // ---- At the end ------------------------------------------------------------------

  lemma {:induction false} PathMarked(topo: Topology, sw: seq<byte>, tx: seq<byte>, sub: seq<byte>, line: seq<byte>,
                                      order: seq<nat>, p: seq<nat>, b: nat)
    requires topo.Valid() && topo.Fits(sw, tx) && |sub| == |topo.subs| && sub[0] == 1
    requires Entered(sub, order) && AllExpanded(topo, sw, tx, sub, line, order, |order|)
    requires topo.Path(sw, tx, p, b)
    ensures b < |sub| && sub[b] == 1
    decreases |p|
  {
    if |p| > 1 {
      var q, a := p[..|p| - 1], p[|p| - 2];
      assert topo.Path(sw, tx, q, a);
      PathMarked(topo, sw, tx, sub, line, order, q, a);
      assert topo.Step(sw, tx, p[|p| - 2], p[|p| - 1]);
      var l :| 0 <= l < |topo.lines| && topo.Feeds(sw, a, l, b);
      FeedMarked(topo, sw, tx, sub, line, order, a, l, b);
    }
  }

  lemma FeedMarked(topo: Topology, sw: seq<byte>, tx: seq<byte>, sub: seq<byte>, line: seq<byte>,
                   order: seq<nat>, a: nat, l: nat, b: nat)
    requires topo.Valid() && topo.Fits(sw, tx) && |sub| == |topo.subs|
    requires Entered(sub, order) && AllExpanded(topo, sw, tx, sub, line, order, |order|)
    requires a < |sub| && sub[a] == 1 && tx[a] != 0 && l < |topo.lines| && topo.Feeds(sw, a, l, b)
    ensures b < |sub| && sub[b] == 1 && l < |line| && line[l] == 1
  {
    var k :| 0 <= k < |order| && order[k] == a;
    assert Expanded(topo, sw, tx, sub, line, order[k]);
    if l in topo.subs[a].outLines && b == topo.lines[l].destSub {
      var z :| 0 <= z < |topo.subs[a].outLines| && topo.subs[a].outLines[z] == l;
      assert Followed(topo, sw, sub, line, l, b);
    } else {
      var z :| 0 <= z < |topo.subs[a].inLines| && topo.subs[a].inLines[z] == l;
      assert Followed(topo, sw, sub, line, l, b);
    }
  }

  /** When everything that entered the queue has been expanded, the marks are
      exactly the powered substations and the energized lines. */
  lemma SearchExact(topo: Topology, sw: seq<byte>, tx: seq<byte>, sub: seq<byte>, line: seq<byte>, order: seq<nat>)
    requires topo.Valid() && topo.Fits(sw, tx) && Sound(topo, sw, tx, sub, line) && sub[0] == 1
    requires Entered(sub, order) && AllExpanded(topo, sw, tx, sub, line, order, |order|)
    ensures sub == topo.SubStatuses(sw, tx)
    ensures forall l | 0 <= l < |line| :: line[l] == if topo.Energized(sw, tx, l) then 1 else 0
    ensures NoRepeats(order) && forall i: nat :: i in order <==> topo.Powered(sw, tx, i)
  {
    forall i: nat ensures topo.Powered(sw, tx, i) <==> i < |sub| && sub[i] == 1 {
      if topo.Powered(sw, tx, i) {
        var p :| topo.Path(sw, tx, p, i);
        PathMarked(topo, sw, tx, sub, line, order, p, i);
      }
    }
    forall l | 0 <= l < |line| ensures line[l] == if topo.Energized(sw, tx, l) then 1 else 0 {
      if topo.Energized(sw, tx, l) {
        LineMarked(topo, sw, tx, sub, line, order, l);
      }
    }
  }

  lemma LineMarked(topo: Topology, sw: seq<byte>, tx: seq<byte>, sub: seq<byte>, line: seq<byte>, order: seq<nat>,
                   l: nat)
    requires topo.Valid() && topo.Fits(sw, tx) && Sound(topo, sw, tx, sub, line) && sub[0] == 1
    requires Entered(sub, order) && AllExpanded(topo, sw, tx, sub, line, order, |order|)
    requires l < |line| && topo.Energized(sw, tx, l)
    ensures line[l] == 1
  {
    var a :| 0 <= a < |topo.subs| && topo.Powered(sw, tx, a) && tx[a] != 0
          && (l in topo.subs[a].outLines || l in topo.subs[a].inLines);
    var p :| topo.Path(sw, tx, p, a);
    PathMarked(topo, sw, tx, sub, line, order, p, a);
    var b := if l in topo.subs[a].outLines then topo.lines[l].destSub else topo.lines[l].srcSub;
    FeedMarked(topo, sw, tx, sub, line, order, a, l, b);
  }
}
