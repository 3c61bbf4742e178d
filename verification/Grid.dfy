/** The power grid a SCADA master watches: its topology, which substations have
    power, and the status array shown to operators. */
module Grid {
  import opened Packets

  datatype Line = Line(id: nat, srcSw: nat, destSw: nat, srcSub: nat, destSub: nat)

  // A substation: its switches, the lines leaving it, and the lines entering it
  // that may also be used backwards.  Its transformer has the substation's index.
  datatype Substation = Substation(id: nat, switches: seq<nat>, outLines: seq<nat>, inLines: seq<nat>)

  datatype Topology = Topology(statLen: nat, swIds: seq<nat>, lines: seq<Line>, subs: seq<Substation>,
                               txIds: seq<nat>) {

    // What init() builds from a well-formed configuration.
    predicate Valid() {
      && 0 < |subs| == |txIds|
      && (forall i | 0 <= i < |swIds| :: swIds[i] < statLen)
      && (forall i | 0 <= i < |txIds| :: txIds[i] < statLen)
      && (forall i | 0 <= i < |subs| :: subs[i].id < statLen)
      && (forall i | 0 <= i < |subs| :: ValidSub(i))
      && (forall l | 0 <= l < |lines| :: ValidLine(lines[l]) && l in subs[lines[l].srcSub].outLines)
      && (forall i, j, a, b | 0 <= i < |subs| && 0 <= j < |subs| && 0 <= a < |subs[i].switches|
          && 0 <= b < |subs[j].switches| ::
            subs[i].switches[a] == subs[j].switches[b] ==> i == j && a == b)
      && (forall w | 0 <= w < |swIds| :: Owned(w))
    }

    predicate ValidSub(i: nat)
      requires i < |subs|
    {
      && |subs[i].switches| <= MAX_SWITCHES
      && (forall a | 0 <= a < |subs[i].switches| :: subs[i].switches[a] < |swIds|)
      && (forall a | 0 <= a < |subs[i].outLines| ::
            subs[i].outLines[a] < |lines| && lines[subs[i].outLines[a]].srcSub == i)
      && (forall a | 0 <= a < |subs[i].inLines| ::
            subs[i].inLines[a] < |lines| && lines[subs[i].inLines[a]].destSub == i)
    }

    predicate ValidLine(l: Line) {
      && l.id < statLen && l.srcSw < |swIds| && l.destSw < |swIds|
      && l.srcSub < |subs| && l.destSub < |subs|
    }

    // Every switch belongs to some substation.
    predicate Owned(w: nat) {
      exists i, a | 0 <= i < |subs| && 0 <= a < |subs[i].switches| :: subs[i].switches[a] == w
    }

    // Statuses of all switches and all transformers.
    predicate Fits(sw: seq<byte>, tx: seq<byte>) {
      |sw| == |swIds| && |tx| == |subs|
    }

    // ---- Which substations have power ----------------------------------------

    predicate Live(sw: seq<byte>, l: nat)
      requires Valid() && |sw| == |swIds| && l < |lines|
    {
      sw[lines[l].srcSw] == 1 && sw[lines[l].destSw] == 1
    }

    // Power flows from substation `a` over line `l` to substation `b`.
    predicate Feeds(sw: seq<byte>, a: nat, l: nat, b: nat)
      requires Valid() && |sw| == |swIds| && a < |subs|
    {
      && l < |lines| && Live(sw, l)
      && ((l in subs[a].outLines && b == lines[l].destSub) || (l in subs[a].inLines && b == lines[l].srcSub))
    }

    predicate Step(sw: seq<byte>, tx: seq<byte>, a: nat, b: nat)
      requires Valid() && Fits(sw, tx)
    {
      a < |subs| && tx[a] != 0 && exists l | 0 <= l < |lines| :: Feeds(sw, a, l, b)
    }

    ghost predicate Path(sw: seq<byte>, tx: seq<byte>, p: seq<nat>, b: nat)
      requires Valid() && Fits(sw, tx)
    {
      && |p| > 0 && p[0] == 0 && p[|p| - 1] == b
      && forall k | 0 <= k < |p| - 1 :: Step(sw, tx, p[k], p[k + 1])
    }

    // Reachable from substation 0.
    ghost predicate Powered(sw: seq<byte>, tx: seq<byte>, b: nat)
      requires Valid() && Fits(sw, tx)
    {
      exists p :: Path(sw, tx, p, b)
    }

    // A line carries power when it is live and hangs off a powered substation
    // whose transformer works.
    ghost predicate Energized(sw: seq<byte>, tx: seq<byte>, l: nat)
      requires Valid() && Fits(sw, tx)
    {
      && l < |lines| && Live(sw, l)
      && exists a | 0 <= a < |subs| ::
           Powered(sw, tx, a) && tx[a] != 0 && (l in subs[a].outLines || l in subs[a].inLines)
    }

    ghost function SubStatus(sw: seq<byte>, tx: seq<byte>, i: nat): byte
      requires Valid() && Fits(sw, tx)
    {
      if Powered(sw, tx, i) then 1 else 0
    }

    // A tripped source switch shows as an alarm.
    ghost function LineStatus(sw: seq<byte>, tx: seq<byte>, l: nat): byte
      requires Valid() && Fits(sw, tx) && l < |lines|
    {
      if sw[lines[l].srcSw] == 2 then 2 else if Energized(sw, tx, l) then 1 else 0
    }

    ghost function SubStatuses(sw: seq<byte>, tx: seq<byte>): (r: seq<byte>)
      requires Valid() && Fits(sw, tx)
      ensures |r| == |subs|
    {
      seq(|subs|, i requires 0 <= i < |subs| => SubStatus(sw, tx, i))
    }

    ghost function LineStatuses(sw: seq<byte>, tx: seq<byte>): (r: seq<byte>)
      requires Valid() && Fits(sw, tx)
      ensures |r| == |lines|
    {
      seq(|lines|, l requires 0 <= l < |lines| => LineStatus(sw, tx, l))
    }

    // ---- The status array ---------------------------------------------------------

    function LineIds(): (r: seq<nat>)
      ensures |r| == |lines|
    {
      seq(|lines|, l requires 0 <= l < |lines| => lines[l].id)
    }

    function SubIds(): (r: seq<nat>)
      ensures |r| == |subs|
    {
      seq(|subs|, i requires 0 <= i < |subs| => subs[i].id)
    }

    // Switches, lines, substations and transformers are written in this order;
    // an entry none of them names keeps its initial value.
    ghost function StatFrom(stat: seq<byte>, sw: seq<byte>, tx: seq<byte>): (r: seq<byte>)
      requires Valid() && Fits(sw, tx) && |stat| == statLen
      ensures |r| == statLen
    {
      var s1 := WriteAll(stat, swIds, sw);
      var s2 := WriteAll(s1, LineIds(), LineStatuses(sw, tx));
      var s3 := WriteAll(s2, SubIds(), SubStatuses(sw, tx));
      WriteAll(s3, txIds, tx)
    }

    ghost function StatOf(sw: seq<byte>, tx: seq<byte>): (r: seq<byte>)
      requires Valid() && Fits(sw, tx)
      ensures |r| == statLen
    {
      StatFrom(Ones(statLen), sw, tx)
    }

    // The entry names a device of the grid.
    predicate Named(e: nat) {
      e in swIds || e in LineIds() || e in SubIds() || e in txIds
    }

    // Entries no device names still hold their initial value.
    predicate Untouched(stat: seq<byte>) {
      |stat| == statLen && forall e | 0 <= e < statLen && !Named(e) :: stat[e] == 1
    }
  }

  function Ones(n: nat): (r: seq<byte>)
    ensures |r| == n && forall i | 0 <= i < n :: r[i] == 1
  {
    seq(n, _ => 1)
  }

  function WriteAll(stat: seq<byte>, ids: seq<nat>, vals: seq<byte>): (r: seq<byte>)
    requires |ids| == |vals|
    ensures |r| == |stat|
  {
    if ids == [] then stat
    else
      var n := |ids| - 1;
      var s := WriteAll(stat, ids[..n], vals[..n]);
      if ids[n] < |stat| then s[ids[n] := vals[n]] else s
  }

  /** An entry holds what was written to it last, or its old value. */
  lemma {:induction false} WriteAllAt(stat: seq<byte>, ids: seq<nat>, vals: seq<byte>, e: nat)
    requires |ids| == |vals| && e < |stat|
    ensures e !in ids ==> WriteAll(stat, ids, vals)[e] == stat[e]
    ensures forall j | 0 <= j < |ids| && ids[j] == e && (forall k | j < k < |ids| :: ids[k] != e) ::
              WriteAll(stat, ids, vals)[e] == vals[j]
  {
    if ids != [] {
      var n := |ids| - 1;
      WriteAllAt(stat, ids[..n], vals[..n], e);
      if ids[n] != e {
        forall j | 0 <= j < |ids| && ids[j] == e && (forall k | j < k < |ids| :: ids[k] != e)
          ensures WriteAll(stat, ids, vals)[e] == vals[j]
        {
          assert ids[..n][j] == e && vals[..n][j] == vals[j];
        }
      }
    }
  }

  // Writing the same values over two arrays that agree elsewhere gives one array.
  lemma {:induction false} WriteAllAgree(s: seq<byte>, t: seq<byte>, ids: seq<nat>, vals: seq<byte>, e: nat)
    requires |s| == |t| && |ids| == |vals| && e < |s|
    requires e in ids || s[e] == t[e]
    ensures WriteAll(s, ids, vals)[e] == WriteAll(t, ids, vals)[e]
  {
    if ids != [] {
      var n := |ids| - 1;
      if ids[n] != e {
        assert e in ids ==> e in ids[..n];
        WriteAllAgree(s, t, ids[..n], vals[..n], e);
      }
    }
  }

  /** However the array stood before, as long as only named entries were ever
      written, processing makes it a function of switches and transformers alone. */
  lemma StatForgetsPast(topo: Topology, stat: seq<byte>, sw: seq<byte>, tx: seq<byte>)
    requires topo.Valid() && topo.Fits(sw, tx) && topo.Untouched(stat)
    ensures topo.StatFrom(stat, sw, tx) == topo.StatOf(sw, tx)
    ensures topo.Untouched(topo.StatOf(sw, tx))
  {
    var ones := Ones(topo.statLen);
    var ls, ss := topo.LineStatuses(sw, tx), topo.SubStatuses(sw, tx);
    forall e | 0 <= e < topo.statLen
      ensures topo.StatFrom(stat, sw, tx)[e] == topo.StatOf(sw, tx)[e]
      ensures !topo.Named(e) ==> topo.StatOf(sw, tx)[e] == 1
    {
      var a1, b1 := WriteAll(stat, topo.swIds, sw), WriteAll(ones, topo.swIds, sw);
      var a2, b2 := WriteAll(a1, topo.LineIds(), ls), WriteAll(b1, topo.LineIds(), ls);
      var a3, b3 := WriteAll(a2, topo.SubIds(), ss), WriteAll(b2, topo.SubIds(), ss);
      if e in topo.txIds {
        WriteAllAgree(a3, b3, topo.txIds, tx, e);
      } else {
        WriteAllAt(a3, topo.txIds, tx, e);
        WriteAllAt(b3, topo.txIds, tx, e);
        if e in topo.SubIds() {
          WriteAllAgree(a2, b2, topo.SubIds(), ss, e);
        } else {
          WriteAllAt(a2, topo.SubIds(), ss, e);
          WriteAllAt(b2, topo.SubIds(), ss, e);
          if e in topo.LineIds() {
            WriteAllAgree(a1, b1, topo.LineIds(), ls, e);
          } else {
            WriteAllAt(a1, topo.LineIds(), ls, e);
            WriteAllAt(b1, topo.LineIds(), ls, e);
            WriteAllAgree(stat, ones, topo.swIds, sw, e);
            WriteAllAt(ones, topo.swIds, sw, e);
          }
        }
      }
    }
  }

  // All device identifiers are different.
  ghost predicate DistinctIds(topo: Topology) {
    var ids := topo.swIds + topo.LineIds() + topo.SubIds() + topo.txIds;
    forall i, j | 0 <= i < j < |ids| :: ids[i] != ids[j]
  }

  /** With distinct identifiers every device's entry shows that device's status. */
  lemma StatShowsDevices(topo: Topology, sw: seq<byte>, tx: seq<byte>)
    requires topo.Valid() && topo.Fits(sw, tx) && DistinctIds(topo)
    ensures var stat := topo.StatOf(sw, tx);
            && (forall i | 0 <= i < |sw| :: stat[topo.swIds[i]] == sw[i])
            && (forall l | 0 <= l < |topo.lines| :: stat[topo.lines[l].id] == topo.LineStatus(sw, tx, l))
            && (forall i | 0 <= i < |topo.subs| :: stat[topo.subs[i].id] == topo.SubStatus(sw, tx, i))
            && (forall i | 0 <= i < |tx| :: stat[topo.txIds[i]] == tx[i])
  {
    var ls, ss := topo.LineStatuses(sw, tx), topo.SubStatuses(sw, tx);
    var s0 := Ones(topo.statLen);
    var s1 := WriteAll(s0, topo.swIds, sw);
    var s2 := WriteAll(s1, topo.LineIds(), ls);
    var s3 := WriteAll(s2, topo.SubIds(), ss);
    var a, b, c := topo.swIds, topo.swIds + topo.LineIds(), topo.swIds + topo.LineIds() + topo.SubIds();
    var ids := c + topo.txIds;
    forall i | 0 <= i < |sw| ensures topo.StatOf(sw, tx)[topo.swIds[i]] == sw[i] {
      LastWriter(topo, i, topo.swIds[i]);
      WriteAllAt(s0, topo.swIds, sw, topo.swIds[i]);
      WriteAllAt(s1, topo.LineIds(), ls, topo.swIds[i]);
      WriteAllAt(s2, topo.SubIds(), ss, topo.swIds[i]);
      WriteAllAt(s3, topo.txIds, tx, topo.swIds[i]);
    }
    forall l | 0 <= l < |ls| ensures topo.StatOf(sw, tx)[topo.lines[l].id] == ls[l] {
      LastWriter(topo, |a| + l, topo.lines[l].id);
      WriteAllAt(s1, topo.LineIds(), ls, topo.lines[l].id);
      WriteAllAt(s2, topo.SubIds(), ss, topo.lines[l].id);
      WriteAllAt(s3, topo.txIds, tx, topo.lines[l].id);
    }
    forall i | 0 <= i < |ss| ensures topo.StatOf(sw, tx)[topo.subs[i].id] == ss[i] {
      LastWriter(topo, |b| + i, topo.subs[i].id);
      WriteAllAt(s2, topo.SubIds(), ss, topo.subs[i].id);
      WriteAllAt(s3, topo.txIds, tx, topo.subs[i].id);
    }
    forall i | 0 <= i < |tx| ensures topo.StatOf(sw, tx)[topo.txIds[i]] == tx[i] {
      LastWriter(topo, |c| + i, topo.txIds[i]);
      WriteAllAt(s3, topo.txIds, tx, topo.txIds[i]);
    }
  }

  // With distinct identifiers, an identifier occurs nowhere else.
  lemma LastWriter(topo: Topology, n: nat, e: nat)
    requires DistinctIds(topo)
    requires var ids := topo.swIds + topo.LineIds() + topo.SubIds() + topo.txIds; n < |ids| && ids[n] == e
    ensures var a, b, c := |topo.swIds|, |topo.swIds| + |topo.lines|, |topo.swIds| + |topo.lines| + |topo.subs|;
            && (forall k | 0 <= k < |topo.swIds| && topo.swIds[k] == e :: k == n)
            && (forall k | 0 <= k < |topo.lines| && topo.LineIds()[k] == e :: a + k == n)
            && (forall k | 0 <= k < |topo.subs| && topo.SubIds()[k] == e :: b + k == n)
            && (forall k | 0 <= k < |topo.txIds| && topo.txIds[k] == e :: c + k == n)
            && (n >= a ==> e !in topo.swIds)
            && (!(a <= n < b) ==> e !in topo.LineIds())
            && (!(b <= n < c) ==> e !in topo.SubIds())
            && (n < c ==> e !in topo.txIds)
  {
    var ids := topo.swIds + topo.LineIds() + topo.SubIds() + topo.txIds;
    forall k | 0 <= k < |ids| && ids[k] == e ensures k == n {
    }
    forall k | 0 <= k < |topo.swIds| && topo.swIds[k] == e ensures k == n {
      assert ids[k] == e;
    }
    forall k | 0 <= k < |topo.lines| && topo.LineIds()[k] == e ensures |topo.swIds| + k == n {
      assert ids[|topo.swIds| + k] == e;
    }
    forall k | 0 <= k < |topo.subs| && topo.SubIds()[k] == e ensures |topo.swIds| + |topo.lines| + k == n {
      assert ids[|topo.swIds| + |topo.lines| + k] == e;
    }
    forall k | 0 <= k < |topo.txIds| && topo.txIds[k] == e ensures |topo.swIds| + |topo.lines| + |topo.subs| + k == n {
      assert ids[|topo.swIds| + |topo.lines| + |topo.subs| + k] == e;
    }
  }
}
